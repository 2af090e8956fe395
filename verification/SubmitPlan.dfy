/** How one Submit attempt is classified, and when the test-only opt-in may click Submit a second time. */
module SubmitPlan {
  import opened Wrappers
  import opened BusinessRequests
  import opened SubmissionObserver

  const MAX_SUBMIT_ATTEMPTS: nat := 2

  datatype AttemptOutcome =
    | AttemptSucceeded | SubmitBlockedBeforeClick | AttemptValidationFailed | AttemptServerRejected | AttemptServerError
    | AttemptBlockedOrChallenged | BusinessRequestPending | BusinessRequestAcceptedUnconfirmed | BusinessRequestOutcomeUnknown
    | CancelledBeforeBusinessRequest | ConsentStateNotCommitted

  /** `seenRequests` are the business requests the observer read last, `businessRequests` those read again after it. */
  datatype Attempt = Attempt(
    succeeded: bool, blockedBeforeClick: bool, confirmationAppeared: bool, observation: Option<Observation>,
    networkRequests: seq<Request>, seenRequests: seq<Request>, businessRequests: seq<Request>,
    validationCauseObserved: bool, validationMessages: nat, invalidFields: nat, siteRejections: nat)

  predicate AcceptedStatus(status: Option<int>) {
    status.Some? && 100 <= status.value < 400
  }

  function ClassifySubmitAttempt(a: Attempt, declineNotCommitted: bool): AttemptOutcome {
    if a.succeeded then AttemptSucceeded
    else if a.blockedBeforeClick || a.observation.None? then SubmitBlockedBeforeClick
    else
      var o := a.observation.value;
      if o.terminalState == BlockedOrChallenged then AttemptBlockedOrChallenged
      else if o.terminalState == ServerRejected then AttemptServerRejected
      else if o.terminalState == ServerFailed then AttemptServerError
      else if o.terminalState == ValidationFailed || a.validationCauseObserved then AttemptValidationFailed
      else if o.businessRequestDetected then
        if o.businessRequest.Some? && o.businessRequest.value.outcome == Pending then BusinessRequestPending
        else if o.businessRequest.Some? && AcceptedStatus(o.businessRequest.value.status) then BusinessRequestAcceptedUnconfirmed
        else BusinessRequestOutcomeUnknown
      else if declineNotCommitted then ConsentStateNotCommitted
      else CancelledBeforeBusinessRequest
  }

  /** How an attempt that was observed without success is classified: by what the observation ended as, then by a validation
      cause, then by the decisive business request, and only without one by the consents. */
  lemma OutcomeExactly(a: Attempt, declineNotCommitted: bool)
    requires !a.succeeded && !a.blockedBeforeClick && a.observation.Some?
    ensures var outcome, o := ClassifySubmitAttempt(a, declineNotCommitted), a.observation.value;
            var end := o.terminalState;
            var answer := if o.businessRequest.Some? then o.businessRequest.value.status else None;
            var pending := o.businessRequest.Some? && o.businessRequest.value.outcome == Pending;
            var open := (end == Succeeded || end == UnknownOutcome) && !a.validationCauseObserved;
            var accepted := answer.Some? && 100 <= answer.value <= 399;
            && (outcome == AttemptBlockedOrChallenged <==> end == BlockedOrChallenged)
            && (outcome == AttemptServerRejected <==> end == ServerRejected)
            && (outcome == AttemptServerError <==> end == ServerFailed)
            && (outcome == AttemptValidationFailed <==>
                  end == ValidationFailed || ((end == Succeeded || end == UnknownOutcome) && a.validationCauseObserved))
            && (outcome == BusinessRequestPending <==> open && o.businessRequestDetected && pending)
            && (outcome == BusinessRequestAcceptedUnconfirmed <==> open && o.businessRequestDetected && !pending && accepted)
            && (outcome == BusinessRequestOutcomeUnknown <==> open && o.businessRequestDetected && !pending && !accepted)
            && (outcome == ConsentStateNotCommitted <==> open && !o.businessRequestDetected && declineNotCommitted)
            && (outcome == CancelledBeforeBusinessRequest <==> open && !o.businessRequestDetected && !declineNotCommitted)
  {}

  /** An attempt counts as never having reached the site exactly when it was clicked and observed, no business request was
      seen, nothing decisive was answered, and no validation cause was found. */
  lemma NeverReachedExactly(a: Attempt, declineNotCommitted: bool)
    ensures ClassifySubmitAttempt(a, declineNotCommitted) in {CancelledBeforeBusinessRequest, ConsentStateNotCommitted} <==>
              && !a.succeeded && !a.blockedBeforeClick && a.observation.Some?
              && !a.observation.value.businessRequestDetected && !a.validationCauseObserved
              && (a.observation.value.terminalState == UnknownOutcome || a.observation.value.terminalState == Succeeded)
    ensures ClassifySubmitAttempt(a, declineNotCommitted) in {BusinessRequestPending, BusinessRequestAcceptedUnconfirmed} ==>
              a.observation.Some? && a.observation.value.businessRequestDetected
  {}

  datatype Live = Live(
    challengeVisible: bool, formVisible: bool, submitEnabled: bool, optionalGroupPresent: bool, optionalGroupsActionable: bool)

  datatype Checks = Checks(
    observedAtLeastMinimum: bool, noConfirmation: bool, noBusinessRequestStarted: bool, noBusinessRequestPending: bool,
    noBusinessAcceptance: bool, noDelayedSuccessEmerging: bool, noValidationOrRejection: bool,
    noChallengeDuplicateOrRateLimit: bool, formPresentAndUsable: bool, firstAttemptClassificationEligible: bool,
    optionalConsentGroupPresent: bool, optionalConsentGroupsActionable: bool, fallbackFlagEnabled: bool, noPreviousRetry: bool)

  predicate DuplicateOrRateLimit(r: Request) {
    r.purpose != UnrelatedTracking && r.status.Some? && r.status.value in {403, 409, 429}
  }

  function EvaluateFallbackEligibility(first: Attempt, outcome: AttemptOutcome, live: Live, flag: bool, attemptsSoFar: nat,
      correctiveRetries: nat): Checks {
    match first.observation
    case None =>
      Checks(false, !first.succeeded && !first.confirmationAppeared, false, false, false, false, false, false, false,
             outcome == CancelledBeforeBusinessRequest || outcome == ConsentStateNotCommitted,
             live.optionalGroupPresent, live.optionalGroupsActionable, flag,
             attemptsSoFar == 1 && correctiveRetries == 0 && attemptsSoFar < MAX_SUBMIT_ATTEMPTS)
    case Some(o) =>
      var b := o.businessRequest;
      Checks(
        o.totalObservationMs >= o.minimumObservationMs,
        !first.succeeded && !first.confirmationAppeared && o.successSignals == [],
        !o.businessRequestDetected,
        !(b.Some? && b.value.outcome == Pending),
        !(b.Some? && AcceptedStatus(b.value.status)),
        o.terminalState == UnknownOutcome && o.finalProgressReasons == [],
        o.terminalState != ValidationFailed && o.terminalState != ServerRejected && o.terminalState != ServerFailed
          && !first.validationCauseObserved && first.validationMessages == 0,
        o.terminalState != BlockedOrChallenged && !live.challengeVisible
          && !(exists r :: r in first.networkRequests && DuplicateOrRateLimit(r)),
        o.formStillPresentAtEnd && !o.submitControlDisabledAtEnd && live.formVisible && live.submitEnabled,
        outcome == CancelledBeforeBusinessRequest || outcome == ConsentStateNotCommitted,
        live.optionalGroupPresent, live.optionalGroupsActionable, flag,
        attemptsSoFar == 1 && correctiveRetries == 0 && attemptsSoFar < MAX_SUBMIT_ATTEMPTS)
  }

  predicate Eligible(c: Checks) {
    && c.observedAtLeastMinimum && c.noConfirmation && c.noBusinessRequestStarted && c.noBusinessRequestPending
    && c.noBusinessAcceptance && c.noDelayedSuccessEmerging && c.noValidationOrRejection
    && c.noChallengeDuplicateOrRateLimit && c.formPresentAndUsable && c.firstAttemptClassificationEligible
    && c.optionalConsentGroupPresent && c.optionalConsentGroupsActionable && c.fallbackFlagEnabled && c.noPreviousRetry
  }

  /** The fourteen guards are not independent: for an observation the observer produced, ten of them already decide. The
      other four follow: the observer reports no request it did not detect and no unknown outcome before its minimum, and
      an unknown outcome without a request or a validation cause can only be classified as eligible. */
  lemma TenGuardsDecide(c: Config, first: Attempt, declineNotCommitted: bool, live: Live, flag: bool, attemptsSoFar: nat,
      correctiveRetries: nat)
    requires first.observation.Some? ==> FromObserver(c, first.observation.value)
    requires first.blockedBeforeClick ==> first.observation.None?
    ensures var k := EvaluateFallbackEligibility(first, ClassifySubmitAttempt(first, declineNotCommitted), live, flag,
        attemptsSoFar, correctiveRetries);
            Eligible(k) <==>
              && k.noBusinessRequestStarted && k.noDelayedSuccessEmerging && k.noChallengeDuplicateOrRateLimit
                  && k.formPresentAndUsable
              && k.noConfirmation && k.noValidationOrRejection
              && k.optionalConsentGroupPresent && k.optionalConsentGroupsActionable && k.fallbackFlagEnabled && k.noPreviousRetry
  {}
}
