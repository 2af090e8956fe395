/** The Submit protocol of one form: a first attempt, bounded corrective retries, and the opt-in fallback. */
module SubmitLoop {
  import opened Wrappers
  import Order
  import opened BusinessRequests
  import opened SubmissionObserver
  import opened SubmitPlan

  const MAX_RETRIES: nat := 2

  /** What recovering site-rejected consent groups reports, and whether the readiness gate then fails. */
  datatype Recovery = Recovery(anyGroup: bool, fieldsOutside: nat, allAnswered: bool, readinessFails: bool)

  /** The page and the site as the protocol meets them: the result of each attempt under the configuration it is given,
      the dealer lookup's state and the recovery in each turn of the loop, and the live state before the fallback. */
  datatype World = World(
    attempt: (nat, Config) -> Attempt, dealerUncommitted: nat -> bool, recovery: nat -> Recovery,
    live: Live, optInVerified: bool, declineNotCommitted: bool)

  /** Attempts come from `attemptSubmit`: a blocked one was never observed, any other ended in an observation that some run of
      the observer reports. It succeeded when the observer saw success and no field is left invalid; after a change of page or
      a success without the form there is no field to be invalid. */
  ghost predicate FromAttemptSubmit(c: Config, a: Attempt) {
    && (a.blockedBeforeClick <==> a.observation.None?)
    && (a.observation.None? ==> !a.succeeded && a.businessRequests == [] && a.seenRequests == [])
    && (a.observation.Some? ==>
          var o := a.observation.value;
          && Observed(c, o, a.seenRequests, a.businessRequests)
          && (a.succeeded <==> o.terminalState == Succeeded && a.invalidFields == 0)
          && (a.invalidFields > 0 ==> a.siteRejections > 0 && !a.confirmationAppeared)
          && (UrlChange in o.successSignals || (o.terminalState == Succeeded && !o.formStillPresentAtEnd) ==>
              a.invalidFields == 0))
  }

  ghost predicate Consistent(w: World) {
    forall n: nat, c: Config :: FromAttemptSubmit(c, w.attempt(n, c))
  }

  datatype Kind = First | Corrective | ConsentRecovery | Fallback

  /** One call of `attemptSubmit`. */
  datatype Try = Try(kind: Kind, config: Config, result: Attempt)

  function Clicks(log: seq<Try>): nat {
    if log == [] then 0 else Clicks(log[..|log| - 1]) + if log[|log| - 1].result.blockedBeforeClick then 0 else 1
  }

  predicate BusinessRequestMayHaveLanded(a: Attempt) {
    a.observation.Some? && a.observation.value.businessRequestDetected
    && a.observation.value.businessRequest.Some? && MayHaveLanded(a.observation.value.businessRequest.value)
  }

  /** A business request of the attempt may have created the lead, as far as is known when the attempt is over. */
  predicate MayHaveCreatedLead(a: Attempt) {
    exists r :: r in a.businessRequests && MayHaveLanded(r)
  }

  /** The loop's guard reads one request; over all those the observer saw it is the guard on the decisive one. */
  lemma GuardOfAttempt(c: Config, a: Attempt)
    requires FromAttemptSubmit(c, a)
    ensures BusinessRequestMayHaveLanded(a) <==> GuardHolds(a.seenRequests)
  {
    if a.observation.Some? {
      ObservedHolds(c, a.observation.value, a.seenRequests, a.businessRequests);
    }
  }

  /** An attempt passes the loop's guard exactly when the observer saw no business request, or saw one rejected, or saw the
      first one fail without an answer. What is found later does not count: if the observer saw none, whatever is found has
      started since or been reclassified; if nothing has changed, a request that may have landed passes exactly beside a
      rejected one or behind a failed one. */
  lemma LandedPassesGuardExactly(c: Config, a: Attempt)
    requires FromAttemptSubmit(c, a) && a.observation.Some?
    ensures !BusinessRequestMayHaveLanded(a) <==> GuardMisses(a.seenRequests)
    ensures a.seenRequests == [] ==> AllUnseen(c, a.observation.value, a.seenRequests, a.businessRequests)
    ensures MayHaveCreatedLead(a) && a.businessRequests == a.seenRequests ==>
              (!BusinessRequestMayHaveLanded(a) <==>
                SomeRejected(a.businessRequests) || a.businessRequests[0].outcome == Failed)
  {
    ObservedHolds(c, a.observation.value, a.seenRequests, a.businessRequests);
    GuardOfAttempt(c, a);
    GuardMissesExactly(a.seenRequests);
    if a.seenRequests == [] {
      NothingSeenAllUnseen(c, a.observation.value, a.businessRequests);
    }
  }

  function FirstConfig(c: Config, flag: bool): Config {
    if flag then c.(baseWindowMs := c.hardCapMs) else c
  }

  /** What there is to correct after a clicked first attempt: an uncommitted dealer, invalid fields, or consent groups the
      site rejected, these only after they were answered and the form is ready again. */
  function Correction(w: World, first: Attempt): Option<Kind> {
    var dealer, recovery := w.dealerUncommitted(0), w.recovery(0);
    var recovers := !dealer && first.siteRejections > 0;
    if !dealer && first.invalidFields == 0 && !recovers then None
    else if recovers && ((recovery.anyGroup && recovery.fieldsOutside == 0) || first.invalidFields == 0) then
      if recovery.allAnswered && !recovery.readinessFails then Some(ConsentRecovery) else None
    else Some(Corrective)
  }

  /** Whether an unsuccessful first attempt is retried, and how. */
  function RetryKind(w: World, first: Attempt): Option<Kind> {
    if first.blockedBeforeClick || BusinessRequestMayHaveLanded(first) then None else Correction(w, first)
  }

  function Retry(w: World, c: Config, first: Attempt, retriesBefore: nat): Option<Try> {
    if first.succeeded || retriesBefore >= MAX_RETRIES then None
    else match RetryKind(w, first)
      case None => None
      case Some(kind) => Some(Try(kind, c, w.attempt(1, c)))
  }

  /** The first attempt was clicked and did not succeed, the observer's requests let it pass, and a retry is left. */
  ghost predicate MayBeRetried(first: Attempt, retriesBefore: nat) {
    !first.succeeded && first.observation.Some? && GuardMisses(first.seenRequests) && retriesBefore < 2
  }

  /** The site rejected consent groups and nothing else is left to correct, every rejected group was answered, and the form is
      ready again. */
  ghost predicate ConsentRetryDue(w: World, first: Attempt, retriesBefore: nat) {
    && MayBeRetried(first, retriesBefore)
    && !w.dealerUncommitted(0) && first.siteRejections > 0
    && (first.invalidFields == 0 || (w.recovery(0).anyGroup && w.recovery(0).fieldsOutside == 0))
    && w.recovery(0).allAnswered && !w.recovery(0).readinessFails
  }

  /** The dealer is not committed, or a field is invalid and the rejection is not of consent groups alone. */
  ghost predicate RefillRetryDue(w: World, first: Attempt, retriesBefore: nat) {
    && MayBeRetried(first, retriesBefore)
    && (w.dealerUncommitted(0)
        || (first.invalidFields > 0
            && (first.siteRejections == 0 || !w.recovery(0).anyGroup || w.recovery(0).fieldsOutside > 0)))
  }

  /** The retry is made, as the one or the other, exactly then. */
  lemma RetryExactly(w: World, c: Config, config: Config, first: Attempt, retriesBefore: nat)
    requires FromAttemptSubmit(config, first)
    ensures Retry(w, c, first, retriesBefore) == Some(Try(ConsentRecovery, c, w.attempt(1, c))) <==>
              ConsentRetryDue(w, first, retriesBefore)
    ensures Retry(w, c, first, retriesBefore) == Some(Try(Corrective, c, w.attempt(1, c))) <==>
              RefillRetryDue(w, first, retriesBefore)
    ensures Retry(w, c, first, retriesBefore).Some? <==>
              ConsentRetryDue(w, first, retriesBefore) || RefillRetryDue(w, first, retriesBefore)
  {
    if first.observation.Some? {
      LandedPassesGuardExactly(config, first);
    }
  }

  /** The retry loop after the first attempt. It makes at most one further attempt, and only after a clicked attempt that
      neither succeeded nor may have created the lead. */
  method RetryLoop(w: World, c: Config, first: Attempt, retriesBefore: nat) returns (second: Option<Try>)
    requires Consistent(w) && retriesBefore <= MAX_RETRIES
    ensures second == Retry(w, c, first, retriesBefore)
    ensures second.Some? && second.value.kind == ConsentRecovery ==>
              w.recovery(0).allAnswered && !w.recovery(0).readinessFails && !w.dealerUncommitted(0) && first.siteRejections > 0
    ensures second.Some? && second.value.kind == Corrective ==> w.dealerUncommitted(0) || first.invalidFields > 0
    ensures second.Some? ==>
              && !first.succeeded && !first.blockedBeforeClick && !BusinessRequestMayHaveLanded(first)
              && retriesBefore < MAX_RETRIES
              && (second.value.kind == Corrective || second.value.kind == ConsentRecovery)
              && second.value.config == c && FromAttemptSubmit(c, second.value.result)
  {
    var attempt, retries := first, retriesBefore;
    var submitClicks := if first.blockedBeforeClick then 0 else 1;
    var recovered := false;
    var turn := 0;
    second := None;
    while !attempt.succeeded && retries < MAX_RETRIES
      invariant retriesBefore <= retries <= MAX_RETRIES && turn <= 1
      invariant second.None? ==> turn == 0 && attempt == first && !recovered && retries == retriesBefore
      invariant second.None? ==> submitClicks == if first.blockedBeforeClick then 0 else 1
      invariant second.Some? ==> second == Retry(w, c, first, retriesBefore)
      invariant second.Some? ==>
                  && !first.succeeded && !first.blockedBeforeClick && !BusinessRequestMayHaveLanded(first)
                  && retriesBefore < MAX_RETRIES && attempt == second.value.result
                  && (second.value.kind == Corrective || second.value.kind == ConsentRecovery)
                  && second.value.config == c && FromAttemptSubmit(c, second.value.result)
                  && submitClicks == if attempt.blockedBeforeClick then 1 else 2
      decreases MAX_RETRIES - retries
    {
      var dealerUncommitted := w.dealerUncommitted(turn);
      var recoveryPossible := !attempt.blockedBeforeClick && !dealerUncommitted && !recovered && attempt.siteRejections > 0;
      var correctiveActionAvailable := !attempt.blockedBeforeClick
          && (dealerUncommitted || attempt.invalidFields > 0 || recoveryPossible);
      if BusinessRequestMayHaveLanded(attempt) {
        break;
      }
      if !correctiveActionAvailable {
        break;
      }
      if submitClicks >= MAX_SUBMIT_ATTEMPTS {
        break;
      }
      var kind := Corrective;
      if recoveryPossible {
        var recovery := w.recovery(turn);
        recovered := true;
        var consentOnly := recovery.anyGroup && recovery.fieldsOutside == 0;
        if consentOnly || attempt.invalidFields == 0 {
          if !recovery.allAnswered || recovery.readinessFails {
            break;
          }
          kind := ConsentRecovery;
        }
      }
      retries := retries + 1;
      attempt := w.attempt(1, c);
      second := Some(Try(kind, c, attempt));
      if !attempt.blockedBeforeClick {
        submitClicks := submitClicks + 1;
      }
      turn := 1;
      if kind == ConsentRecovery {
        break;
      }
    }
  }

  /** What may be said of every run of the protocol. */
  ghost predicate NeverDuplicates(c: Config, flag: bool, log: seq<Try>) {
    && 1 <= |log| <= 2 && log[0].kind == First && log[0].config == FirstConfig(c, flag)
    && Clicks(log) <= 2
    && (|log| == 2 ==>
          var first := log[0].result;
          && log[1].kind != First
          && !first.succeeded && !first.blockedBeforeClick
          && !BusinessRequestMayHaveLanded(first)
          && first.observation.Some? && GuardMisses(first.seenRequests)
          && (first.seenRequests == [] ==> AllUnseen(log[0].config, first.observation.value, [], first.businessRequests))
          && (log[1].kind == Fallback ==> Silent(c, flag, first) && first.seenRequests == []))
  }

  /** The first attempt reached no business request, was watched for the full hard cap, and ended with nothing in progress. */
  predicate Silent(c: Config, flag: bool, first: Attempt) {
    && flag && first.observation.Some?
    && var o := first.observation.value;
       && !o.businessRequestDetected && o.businessRequest.None?
       && o.terminalState == UnknownOutcome && o.totalObservationMs >= c.hardCapMs
       && o.finalProgressReasons == [] && o.successSignals == [] && !first.confirmationAppeared
       && !first.validationCauseObserved && o.formStillPresentAtEnd
  }

  /** The opt-in fallback clicks Submit exactly when all fourteen guards hold and every optional consent was read back. */
  predicate FallbackRuns(w: World, flag: bool, first: Attempt) {
    var outcome := ClassifySubmitAttempt(first, w.declineNotCommitted);
    !first.succeeded && w.optInVerified
    && Eligible(EvaluateFallbackEligibility(first, outcome, w.live, flag, if first.blockedBeforeClick then 0 else 1, 0))
  }

  /** The form can still be sent, nothing speaks of a challenge, a duplicate or a rate limit, and the optional consents are
      there, actionable, and read back as accepted. */
  predicate StillSendable(w: World, first: Attempt) {
    && first.observation.Some? && !first.observation.value.submitControlDisabledAtEnd
    && w.live.formVisible && w.live.submitEnabled && !w.live.challengeVisible
    && (forall r :: r in first.networkRequests && r.status.Some? && r.purpose != UnrelatedTracking ==>
          r.status.value != 403 && r.status.value != 409 && r.status.value != 429)
    && first.validationMessages == 0
    && w.live.optionalGroupPresent && w.live.optionalGroupsActionable && w.optInVerified
  }

  /** The fallback runs if and only if the first attempt stayed silent for the full hard cap and the form is still sendable. */
  lemma FallbackRunsExactly(w: World, c: Config, flag: bool, first: Attempt)
    requires FromAttemptSubmit(FirstConfig(c, flag), first)
    ensures FallbackRuns(w, flag, first) <==> Silent(c, flag, first) && StillSendable(w, first)
    ensures Silent(c, flag, first) ==> first.seenRequests == []
  {
    if first.observation.Some? {
      ObservedHolds(FirstConfig(c, flag), first.observation.value, first.seenRequests, first.businessRequests);
    }
  }

  /** Submit is clicked a second time if and only if the observer's requests let the first attempt pass, and either there is
      something to correct within the retry budget or the fallback's conditions hold. No request found later plays a part. */
  lemma SecondClickExactly(w: World, c: Config, flag: bool, retriesBefore: nat)
    requires Consistent(w)
    ensures var first := w.attempt(0, FirstConfig(c, flag));
            Retry(w, c, first, retriesBefore).Some? || FallbackRuns(w, flag, first) <==>
              && first.observation.Some? && !first.succeeded && GuardMisses(first.seenRequests)
              && (ConsentRetryDue(w, first, retriesBefore) || RefillRetryDue(w, first, retriesBefore)
                  || (Silent(c, flag, first) && StillSendable(w, first)))
  {
    var first := w.attempt(0, FirstConfig(c, flag));
    assert FromAttemptSubmit(FirstConfig(c, flag), first);
    FallbackRunsExactly(w, c, flag, first);
    RetryExactly(w, c, FirstConfig(c, flag), first, retriesBefore);
  }

  /** An uncommitted dealer always warrants the retry when it may be made. When the site rejected consent groups and nothing else
      is left to correct, Submit is clicked again as a retry if and only if every rejected group was answered and the form is
      ready. */
  lemma RejectedConsentNeedsAnswers(w: World, c: Config, flag: bool, retriesBefore: nat)
    requires Consistent(w)
    ensures var first := w.attempt(0, FirstConfig(c, flag));
            && (w.dealerUncommitted(0) ==>
                  (Retry(w, c, first, retriesBefore).Some? <==> MayBeRetried(first, retriesBefore)))
            && (!w.dealerUncommitted(0) && first.siteRejections > 0
                && (first.invalidFields == 0 || (w.recovery(0).anyGroup && w.recovery(0).fieldsOutside == 0)) ==>
                  (Retry(w, c, first, retriesBefore).Some? <==>
                    MayBeRetried(first, retriesBefore) && w.recovery(0).allAnswered && !w.recovery(0).readinessFails))
  {
    assert FromAttemptSubmit(FirstConfig(c, flag), w.attempt(0, FirstConfig(c, flag)));
    RetryExactly(w, c, FirstConfig(c, flag), w.attempt(0, FirstConfig(c, flag)), retriesBefore);
  }

  /** After an attempt whose observation ended in success Submit is clicked again if and only if a field is left invalid, no
      request the observer saw holds the retry back, and, when consent groups alone were rejected and the dealer is committed,
      all of them were answered and the form is ready. Then the page did not change and the form is still there; the fallback
      never follows. */
  lemma SuccessThenClickExactly(w: World, c: Config, flag: bool, retriesBefore: nat)
    requires Consistent(w)
    requires var first := w.attempt(0, FirstConfig(c, flag));
             first.observation.Some? && first.observation.value.terminalState == Succeeded
    ensures var first := w.attempt(0, FirstConfig(c, flag));
            && !FallbackRuns(w, flag, first)
            && (Retry(w, c, first, retriesBefore).Some? <==>
                  && first.invalidFields > 0 && retriesBefore < 2 && GuardMisses(first.seenRequests)
                  && (w.dealerUncommitted(0) || !w.recovery(0).anyGroup || w.recovery(0).fieldsOutside > 0
                      || (w.recovery(0).allAnswered && !w.recovery(0).readinessFails)))
            && (Retry(w, c, first, retriesBefore).Some? ==>
                  UrlChange !in first.observation.value.successSignals && first.observation.value.formStillPresentAtEnd)
  {
    assert FromAttemptSubmit(FirstConfig(c, flag), w.attempt(0, FirstConfig(c, flag)));
    RetryExactly(w, c, FirstConfig(c, flag), w.attempt(0, FirstConfig(c, flag)), retriesBefore);
    FallbackRunsExactly(w, c, flag, w.attempt(0, FirstConfig(c, flag)));
  }

  lemma ClicksOfTwo(log: seq<Try>)
    requires |log| <= 2
    ensures Clicks(log) <= 2
  {
    if |log| == 2 {
      assert log[..1][..0] == [];
    }
  }

  /** What the second attempt is, if there is one, in terms of the first attempt and the page alone. */
  ghost predicate KindsExactly(w: World, c: Config, flag: bool, retriesBefore: nat, log: seq<Try>) {
    && log != [] && log[0].result == w.attempt(0, if flag then c.(baseWindowMs := c.hardCapMs) else c)
    && var first := log[0].result;
       var consent, refill := ConsentRetryDue(w, first, retriesBefore), RefillRetryDue(w, first, retriesBefore);
       && (|log| == 2 && log[1].kind == ConsentRecovery <==> consent)
       && (|log| == 2 && log[1].kind == Corrective <==> refill)
       && (|log| == 2 && log[1].kind == Fallback <==>
           !consent && !refill && Silent(c, flag, first) && StillSendable(w, first))
       && (|log| == 2 ==> log[1].kind != First && log[1].config == c && log[1].result == w.attempt(1, c))
  }

  lemma KindsFollow(w: World, c: Config, flag: bool, retriesBefore: nat, log: seq<Try>)
    requires Consistent(w) && 1 <= |log| <= 2
    requires log[0] == Try(First, FirstConfig(c, flag), w.attempt(0, FirstConfig(c, flag)))
    requires var first := w.attempt(0, FirstConfig(c, flag));
             var retry := Retry(w, c, first, retriesBefore);
             if retry.Some? then log[1..] == [retry.value]
             else log[1..] == if FallbackRuns(w, flag, first) then [Try(Fallback, c, w.attempt(1, c))] else []
    ensures KindsExactly(w, c, flag, retriesBefore, log)
  {
    var first := w.attempt(0, FirstConfig(c, flag));
    assert FromAttemptSubmit(FirstConfig(c, flag), first);
    RetryExactly(w, c, FirstConfig(c, flag), first, retriesBefore);
    FallbackRunsExactly(w, c, flag, first);
    if |log| == 2 {
      assert log[1..][0] == log[1];
    }
  }

  /** Submit is clicked at most twice, whatever the page does. The second attempt comes only after a first that was
      clicked, did not succeed, and whose business request was neither pending nor answered below 400; if it is the
      fallback, the observer saw no business request during the first and watched it for the full hard cap. A request that may
      have created the lead is followed by a second click only beside a rejected one, behind a failed one, or when it started
      or was reclassified after the observer's last look. */
  method RunSubmit(w: World, c: Config, flag: bool, retriesBefore: nat) returns (log: seq<Try>)
    requires Consistent(w) && retriesBefore <= MAX_RETRIES
    ensures NeverDuplicates(c, flag, log)
    ensures var first := w.attempt(0, FirstConfig(c, flag));
            var retry := Retry(w, c, first, retriesBefore);
            if retry.Some? then log[1..] == [retry.value]
            else log[1..] == if FallbackRuns(w, flag, first) then [Try(Fallback, c, w.attempt(1, c))] else []
    ensures KindsExactly(w, c, flag, retriesBefore, log)
  {
    var firstConfig := FirstConfig(c, flag);
    var first := w.attempt(0, firstConfig);
    assert FromAttemptSubmit(firstConfig, first);
    log := [Try(First, firstConfig, first)];
    var second := RetryLoop(w, c, first, retriesBefore);
    var submitClicks, correctiveRetries := if first.blockedBeforeClick then 0 else 1, 0;
    if second.Some? {
      log := log + [second.value];
      submitClicks, correctiveRetries := submitClicks + (if second.value.result.blockedBeforeClick then 0 else 1), 1;
    }
    if !first.succeeded {
      var outcome := ClassifySubmitAttempt(first, w.declineNotCommitted);
      var checks := EvaluateFallbackEligibility(first, outcome, w.live, flag, submitClicks, correctiveRetries);
      if Eligible(checks) && w.optInVerified {
        log := log + [Try(Fallback, c, w.attempt(1, c))];
      }
    }
    ClicksOfTwo(log);
    FallbackRunsExactly(w, c, flag, first);
    if first.observation.Some? {
      LandedPassesGuardExactly(firstConfig, first);
    }
    KindsFollow(w, c, flag, retriesBefore, log);
  }

  // ---------------------------------------------------------------- runs that may send the lead twice

  const ACCEPTED := Request("POST", Some("site"), "xhr", Unknown, Some(200), Completed)
  const REJECTED := Request("POST", Some("site"), "xhr", ValidationError, Some(422), Completed)
  const STARTED := Request("POST", Some("site"), "xhr", Unknown, None, Pending)

  function OwnSite(): Site {
    Site(Some("site"), None, (a: string, b: string) => false, (s: string) => s)
  }

  /** Every attempt under one configuration ends alike; refilling is the only correction the page calls for. */
  function RepeatingWorld(attempt: Config -> Attempt): World {
    World.World((n: nat, c: Config) => attempt(c), (n: nat) => false, (n: nat) => Recovery(false, 0, false, false),
                Live(false, true, true, true, true), true, false)
  }

  /** An attempt that ends at the observer's first turn with one field invalid. */
  function EndedAtOnce(c: Config, snapshot: Snapshot, markers: nat, seen: seq<Request>, found: seq<Request>): Attempt {
    Attempt(false, false, false, Some(Reported(SteadyPage(c, OwnSite(), snapshot, markers, seen), c, 0)), found, seen, found,
        true, 1, 1, 1)
  }

  lemma EndedAtOnceObserved(c: Config, snapshot: Snapshot, markers: nat, seen: seq<Request>, found: seq<Request>)
    requires Answered(seen) && Answered(found) && Later(seen, found)
    requires SelectBusinessRequests(OwnSite(), seen) == seen && SelectBusinessRequests(OwnSite(), found) == found
    requires Verdict(SteadyPage(c, OwnSite(), snapshot, markers, seen), 0).Some?
    requires snapshot.formConnected && snapshot.formVisible
    ensures FromAttemptSubmit(c, EndedAtOnce(c, snapshot, markers, seen, found))
  {
    var w := SteadyPage(c, OwnSite(), snapshot, markers, seen);
    SteadyPageClocked(c, OwnSite(), snapshot, markers, seen);
    assert ReportOf(w, c, 0, found, Reported(w, c, 0), seen, found);
  }

  lemma NoneSelected(site: Site)
    ensures SelectBusinessRequests(site, []) == []
  {}

  lemma StartedSelected()
    ensures SelectBusinessRequests(OwnSite(), [STARTED]) == [STARTED]
  {
    Order.FilterSnoc([], STARTED, InTier(OwnSite(), Primary));
    assert [] + [STARTED] == [STARTED];
  }

  lemma BothSelected(site: Site)
    requires site.pageHost == Some("site") && site.actionHost.None? && site.upper("POST") == "POST"
    ensures SelectBusinessRequests(site, [ACCEPTED, REJECTED]) == [ACCEPTED, REJECTED]
    ensures Decisive([ACCEPTED, REJECTED]) == Some(REJECTED)
  {
    var rs := [ACCEPTED, REJECTED];
    assert rs[1..] == [REJECTED] && [REJECTED][1..] == [];
    assert FirstRejected(rs) == FirstRejected([REJECTED]) == Some(REJECTED);
    Order.FilterSnoc([ACCEPTED], REJECTED, InTier(site, Primary));
    Order.FilterSnoc([], ACCEPTED, InTier(site, Primary));
    assert [] + [ACCEPTED] == [ACCEPTED] && [ACCEPTED] + [REJECTED] == rs;
  }

  lemma TwoClicks(a: Try, b: Try)
    requires !a.result.blockedBeforeClick && !b.result.blockedBeforeClick
    ensures Clicks([a, b]) == 2
  {
    assert [a, b][..1] == [a] && [a][..0] == [];
    assert Clicks([a]) == 1;
  }

  lemma RepeatingIsConsistent(attempt: Config -> Attempt)
    requires forall c: Config :: FromAttemptSubmit(c, attempt(c))
    ensures Consistent(RepeatingWorld(attempt))
  {}

  /** Submit is clicked again on the world's own first attempt, as a corrective retry. */
  ghost predicate RetriedThere(w: World, c: Config) {
    var first, again := w.attempt(0, c), w.attempt(1, c);
    && Consistent(w)
    && Retry(w, c, first, 0) == Some(Try(Corrective, c, again))
    && Clicks([Try(First, c, first), Try(Corrective, c, again)]) == 2
  }

  lemma RefillIsTheCorrection(attempt: Config -> Attempt, c: Config, a: Attempt)
    requires a.observation.Some? && !a.succeeded && !a.blockedBeforeClick && a.invalidFields > 0
    requires !BusinessRequestMayHaveLanded(a)
    ensures var w := RepeatingWorld(attempt); Retry(w, c, a, 0) == Some(Try(Corrective, c, w.attempt(1, c)))
  {}

  lemma RepeatingIsRetried(attempt: Config -> Attempt, c: Config)
    requires forall d: Config :: FromAttemptSubmit(d, attempt(d))
    requires var a := attempt(c);
             a.observation.Some? && !a.succeeded && a.invalidFields > 0 && GuardMisses(a.seenRequests)
    ensures RetriedThere(RepeatingWorld(attempt), c)
  {
    var a := attempt(c);
    assert FromAttemptSubmit(c, a);
    RepeatingIsConsistent(attempt);
    LandedPassesGuardExactly(c, a);
    RefillIsTheCorrection(attempt, c, a);
    TwoClicks(Try(First, c, a), Try(Corrective, c, a));
  }

  /** The click sends a pre-check the site accepts and then a request it rejects. */
  function TwoAnswers(): Config -> Attempt {
    (c: Config) => EndedAtOnce(c, EMPTY_SNAPSHOT, 0, [ACCEPTED, REJECTED], [ACCEPTED, REJECTED])
  }

  /** On that site Submit is clicked again although the first click's accepted request may have created the lead. */
  lemma AcceptedThenRejectedIsRetried(c: Config)
    ensures RetriedThere(RepeatingWorld(TwoAnswers()), c) && MayHaveCreatedLead(TwoAnswers()(c))
  {
    BothSelected(OwnSite());
    forall d: Config
      ensures FromAttemptSubmit(d, TwoAnswers()(d))
    {
      EndedAtOnceObserved(d, EMPTY_SNAPSHOT, 0, [ACCEPTED, REJECTED], [ACCEPTED, REJECTED]);
    }
    assert ACCEPTED in TwoAnswers()(c).businessRequests && MayHaveLanded(ACCEPTED);
    assert REJECTED in TwoAnswers()(c).seenRequests;
    RepeatingIsRetried(TwoAnswers(), c);
  }

  const INVALID := EMPTY_SNAPSHOT.(ariaInvalidCount := 1)

  /** The observer sees a field marked invalid and no request; one starts before the captured requests are read again. */
  function LateRequest(): Config -> Attempt {
    (c: Config) => EndedAtOnce(c, INVALID, 0, [], [STARTED])
  }

  lemma LateRequestIsRetried(c: Config)
    ensures RetriedThere(RepeatingWorld(LateRequest()), c) && MayHaveCreatedLead(LateRequest()(c))
  {
    NoneSelected(OwnSite());
    StartedSelected();
    forall d: Config
      ensures FromAttemptSubmit(d, LateRequest()(d))
    {
      EndedAtOnceObserved(d, INVALID, 0, [], [STARTED]);
    }
    assert STARTED in LateRequest()(c).businessRequests && MayHaveLanded(STARTED);
    RepeatingIsRetried(LateRequest(), c);
  }

  /** The page confirms, keeps the form and leaves a field invalid; the lead went to a host that is not the site's. */
  function Confirmed(): Config -> Attempt {
    (c: Config) => EndedAtOnce(c, EMPTY_SNAPSHOT, 1, [], [])
  }

  lemma ConfirmedIsRetried(c: Config)
    ensures RetriedThere(RepeatingWorld(Confirmed()), c)
    ensures Confirmed()(c).observation.value.successSignals == [ConfirmationMessage]
  {
    NoneSelected(OwnSite());
    forall d: Config
      ensures FromAttemptSubmit(d, Confirmed()(d))
    {
      EndedAtOnceObserved(d, EMPTY_SNAPSHOT, 1, [], []);
    }
    RepeatingIsRetried(Confirmed(), c);
  }

  /** The observer waits out its window on a still page; then a request starts. Unsound windows never get to the click. */
  function AfterStillPage(c: Config): Attempt {
    if !Sound(c) then Attempt(false, true, false, None, [], [], [], false, 0, 0, 0)
    else Attempt(false, false, false, Some(Reported(StillPage(c, OwnSite()), c, StopTurn(c, 0))), [STARTED], [], [STARTED],
                 false, 0, 0, 0)
  }

  lemma AfterStillPageObserved(c: Config)
    ensures FromAttemptSubmit(c, AfterStillPage(c))
  {
    if Sound(c) {
      var w, k := StillPage(c, OwnSite()), StopTurn(c, 0);
      NoneSelected(OwnSite());
      StartedSelected();
      SteadyPageClocked(c, OwnSite(), EMPTY_SNAPSHOT, 0, []);
      StillPageStops(c, OwnSite());
      StillPageVerdict(c, OwnSite(), k);
      assert ReportOf(w, c, k, [STARTED], Reported(w, c, k), [], [STARTED]);
    }
  }

  lemma StillPageIsSilent(c: Config)
    requires Sound(c)
    ensures var first := AfterStillPage(FirstConfig(c, true));
            Silent(c, true, first) && !first.observation.value.submitControlDisabledAtEnd
  {
    var d := FirstConfig(c, true);
    var w, k := StillPage(d, OwnSite()), StopTurn(d, 0);
    SteadyPageClocked(d, OwnSite(), EMPTY_SNAPSHOT, 0, []);
    StillPageStops(d, OwnSite());
    StillPageVerdict(d, OwnSite(), k);
    ReportedHolds(w, d, k);
    NoneSelected(OwnSite());
  }

  function LateWorld(): World {
    RepeatingWorld((c: Config) => AfterStillPage(c))
  }

  lemma LateIsConsistent()
    ensures Consistent(LateWorld())
  {
    forall c: Config
      ensures FromAttemptSubmit(c, AfterStillPage(c))
    {
      AfterStillPageObserved(c);
    }
  }

  lemma LateIsSendable(c: Config, first: Attempt)
    requires Sound(c) && first == LateWorld().attempt(0, FirstConfig(c, true))
    ensures Silent(c, true, first) && StillSendable(LateWorld(), first) && FromAttemptSubmit(FirstConfig(c, true), first)
  {
    StillPageIsSilent(c);
    AfterStillPageObserved(FirstConfig(c, true));
  }

  lemma LateIsNotCorrected(c: Config, first: Attempt)
    requires Sound(c) && first == LateWorld().attempt(0, FirstConfig(c, true))
    ensures Retry(LateWorld(), c, first, 0).None? && MayHaveCreatedLead(first)
  {
    assert STARTED in first.businessRequests && MayHaveLanded(STARTED);
  }

  /** The fallback clicks Submit although the first click's request is on its way. */
  lemma LateRequestMeetsFallback(c: Config, first: Attempt)
    requires Sound(c) && first == LateWorld().attempt(0, FirstConfig(c, true))
    ensures Consistent(LateWorld()) && MayHaveCreatedLead(first)
    ensures Retry(LateWorld(), c, first, 0).None?
    ensures FallbackRuns(LateWorld(), true, first) == true  // the equation keeps the definition folded
  {
    LateIsConsistent();
    LateIsNotCorrected(c, first);
    LateIsSendable(c, first);
    FallbackRunsExactly(LateWorld(), c, true, first);
  }
}
