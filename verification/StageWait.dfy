/** The bounded, once-extendable wait of one dealer-lookup stage, and the click that follows it. */
module StageWait {
  import opened Wrappers
  import opened Bounds

  const POLL_INTERVAL_MS := 250

  /** A result found on the page: its element, and whether its role marks it as a result. */
  datatype Found = Found(element: nat, authoritative: bool)

  /** All that one turn of the wait reads. Clock readings are in the order taken: at the deadline test, at the test
      against the maximum, and when extending, after the page was asked for a loading indicator. */
  datatype Turn = Turn(result: Option<Found>, deadlineClock: int, capClock: int, loading: bool, pending: bool, extendClock: int,
      pendingAtEnd: bool)

  datatype Limits = Limits(baseMs: nat, extensionMs: nat, maxMs: nat)

  const STAGE_LIMITS := Limits(6000, 3000, 9000)

  /** A wait as the page plays it. */
  datatype Watch = Watch(turn: nat -> Turn, start: int)

  datatype StagePoll = StagePoll(result: Option<Found>, timedOut: bool, extended: bool, loadingObserved: bool,
      pendingAtTimeout: bool)

  /** Turn `k` grants the extension: past the deadline, none granted yet, before the maximum, and work in progress. */
  predicate Extends(w: Watch, c: Limits, k: nat)
    decreases k, 1
  {
    var t := w.turn(k);
    t.result.None? && t.deadlineClock >= Deadline(w, c, k) && !Extended(w, c, k) && t.capClock < w.start + c.maxMs
        && (t.loading || t.pending)
  }

  predicate Extended(w: Watch, c: Limits, k: nat)
    decreases k, 0
  {
    k > 0 && (Extended(w, c, k - 1) || Extends(w, c, k - 1))
  }

  function Deadline(w: Watch, c: Limits, k: nat): int
    decreases k, 0
  {
    if k == 0 then w.start + c.baseMs
    else if Extends(w, c, k - 1) then Min(w.start + c.maxMs, w.turn(k - 1).extendClock + c.extensionMs)
    else Deadline(w, c, k - 1)
  }

  predicate TimesOut(w: Watch, c: Limits, k: nat) {
    w.turn(k).result.None? && w.turn(k).deadlineClock >= Deadline(w, c, k) && !Extends(w, c, k)
  }

  /** The clock never runs back, and between two turns the wait sleeps, except right after it was extended. */
  predicate ClockedAt(w: Watch, c: Limits, k: nat) {
    var t := w.turn(k);
    && w.start <= t.deadlineClock <= t.capClock <= t.extendClock
    && (if Extends(w, c, k) then t.extendClock <= w.turn(k + 1).deadlineClock
        else t.deadlineClock + POLL_INTERVAL_MS <= w.turn(k + 1).deadlineClock)
  }

  ghost predicate Clocked(w: Watch, c: Limits) {
    forall k: nat :: ClockedAt(w, c, k)
  }

  /** The deadline never falls, never passes the maximum, and stays the base window unless extended. */
  lemma {:induction false} DeadlineWithinMaximum(w: Watch, c: Limits, k: nat)
    requires Clocked(w, c) && c.baseMs <= c.maxMs
    ensures w.start + c.baseMs <= Deadline(w, c, k) <= w.start + c.maxMs
    ensures !Extended(w, c, k) ==> Deadline(w, c, k) == w.start + c.baseMs
    ensures k > 0 ==> Deadline(w, c, k - 1) <= Deadline(w, c, k)
    ensures Extended(w, c, k) ==> Deadline(w, c, k) >= w.start + Min(c.maxMs, c.baseMs + c.extensionMs)
  {
    if k > 0 {
      assert ClockedAt(w, c, k - 1);
      DeadlineWithinMaximum(w, c, k - 1);
    }
  }

  /** A stage waits six seconds, or at most nine when it is extended. */
  lemma StageWindows(w: Watch, k: nat)
    requires Clocked(w, STAGE_LIMITS)
    ensures Deadline(w, STAGE_LIMITS, k) <= w.start + 9000
    ensures !Extended(w, STAGE_LIMITS, k) ==> Deadline(w, STAGE_LIMITS, k) == w.start + 6000
  {
    DeadlineWithinMaximum(w, STAGE_LIMITS, k);
  }

  lemma {:induction false} ExtendedStays(w: Watch, c: Limits, j: nat, k: nat)
    requires j <= k && Extended(w, c, j)
    ensures Extended(w, c, k)
    decreases k
  {
    if j < k {
      ExtendedStays(w, c, j, k - 1);
    }
  }

  /** At most one turn of a wait extends it. */
  lemma ExtendsOnce(w: Watch, c: Limits, j: nat, k: nat)
    requires j < k && Extends(w, c, j)
    ensures !Extends(w, c, k)
  {
    ExtendedStays(w, c, j + 1, k);
  }

  /** The first deadline that passes while something is loading or pending, before the maximum, is moved by the extension or to
      the maximum; any other deadline that passes without a result ends the wait. */
  lemma WorkExtends(w: Watch, c: Limits, k: nat)
    requires w.turn(k).result.None? && w.turn(k).deadlineClock >= Deadline(w, c, k)
    ensures var t := w.turn(k);
            && (TimesOut(w, c, k) <==> Extended(w, c, k) || t.capClock >= w.start + c.maxMs || !(t.loading || t.pending))
            && (!TimesOut(w, c, k) ==>
                  Extended(w, c, k + 1) && Deadline(w, c, k + 1) == Min(w.start + c.maxMs, t.extendClock + c.extensionMs))
  {}

  /** A turn that neither finds a result nor times out is before the maximum, and the next one is later or already extended. */
  lemma TurnAdvances(w: Watch, c: Limits, k: nat)
    requires Clocked(w, c) && c.baseMs <= c.maxMs
    requires w.turn(k).result.None? && !TimesOut(w, c, k)
    ensures w.turn(k).deadlineClock < w.start + c.maxMs
    ensures Extends(w, c, k) || w.turn(k).deadlineClock < w.turn(k + 1).deadlineClock
    ensures Extends(w, c, k) ==> !Extended(w, c, k) && w.turn(k).deadlineClock <= w.turn(k + 1).deadlineClock
  {
    assert ClockedAt(w, c, k);
    DeadlineWithinMaximum(w, c, k);
  }

  /** What a wait observed of pending requests: at its extension, or at its end. */
  predicate PendingSeen(w: Watch, c: Limits, n: nat) {
    (exists k :: 0 <= k < n && Extends(w, c, k) && w.turn(k).pending) || (w.turn(n).result.None? && w.turn(n).pendingAtEnd)
  }

  predicate LoadingSeen(w: Watch, c: Limits, n: nat) {
    exists k :: 0 <= k < n && Extends(w, c, k) && w.turn(k).loading
  }

  /**
   * The wait. It ends at the first turn that finds a result, or at the first one past a deadline that may not be extended;
   * no turn but the last is at or past the maximum, and a time-out never comes before the base window.
   */
  method PollForStageResult(w: Watch, c: Limits) returns (poll: StagePoll, turns: nat)
    requires Clocked(w, c) && c.baseMs <= c.maxMs
    ensures forall k :: 0 <= k < turns ==>
        w.turn(k).result.None? && !TimesOut(w, c, k) && w.turn(k).deadlineClock < w.start + c.maxMs
    ensures poll.result == w.turn(turns).result
    ensures poll.timedOut <==> poll.result.None?
    ensures poll.timedOut ==> TimesOut(w, c, turns) && w.turn(turns).deadlineClock >= w.start + c.baseMs
    ensures poll.extended <==> Extended(w, c, turns)
    ensures poll.extended ==> poll.loadingObserved || PendingSeen(w, c, turns)
    ensures poll.timedOut ==> (poll.pendingAtTimeout <==> PendingSeen(w, c, turns))
    ensures poll.loadingObserved <==> LoadingSeen(w, c, turns)
  {
    var deadline := w.start + c.baseMs;
    var extended, loadingObserved, pendingObserved := false, false, false;
    turns := 0;
    while true
      invariant deadline == Deadline(w, c, turns)
      invariant extended == Extended(w, c, turns)
      invariant loadingObserved <==> LoadingSeen(w, c, turns)
      invariant pendingObserved <==> exists k :: 0 <= k < turns && Extends(w, c, k) && w.turn(k).pending
      invariant extended ==> loadingObserved || pendingObserved
      invariant !extended ==> !loadingObserved && !pendingObserved
      invariant forall k :: 0 <= k < turns ==>
          w.turn(k).result.None? && !TimesOut(w, c, k) && w.turn(k).deadlineClock < w.start + c.maxMs
      decreases !extended, w.start + c.maxMs - w.turn(turns).deadlineClock
    {
      var t := w.turn(turns);
      if t.result.Some? {
        return StagePoll(t.result, false, extended, loadingObserved, pendingObserved), turns;
      }
      if t.deadlineClock >= deadline {
        if !extended && t.capClock < w.start + c.maxMs && (t.loading || t.pending) {
          assert Extends(w, c, turns);
          TurnAdvances(w, c, turns);
          loadingObserved, pendingObserved, extended := t.loading, t.pending, true;
          deadline := Min(w.start + c.maxMs, t.extendClock + c.extensionMs);
          turns := turns + 1;
          continue;
        }
        DeadlineWithinMaximum(w, c, turns);
        return StagePoll(None, true, extended, loadingObserved, pendingObserved || t.pendingAtEnd), turns;
      }
      TurnAdvances(w, c, turns);
      turns := turns + 1;
    }
  }

  // ---------------------------------------------------------------- clicking what was found

  const STALE_RESULT_REFINDS: nat := 3

  datatype ClickOutcome = Clicked | Detached | Failed

  /** One try at clicking: whether the element was still in the page, what the guarded click then reports, and what a
      fresh search finds if the element had gone. */
  datatype Chance = Chance(attached: bool, guarded: ClickOutcome, again: Option<Found>)

  datatype Press = Press(found: Found, outcome: ClickOutcome)

  /** A click that landed, or failed on an element still present, is the last; an element is looked up again at most three
      times. */
  ghost predicate LandsAtMostOnce(presses: seq<Press>) {
    && 1 <= |presses| <= STALE_RESULT_REFINDS + 1
    && forall i :: 0 <= i < |presses| - 1 ==> presses[i].outcome == Detached
  }

  method ClickStageResult(chance: nat -> Chance, first: Found) returns (found: Found, outcome: ClickOutcome, presses: seq<Press>)
    ensures LandsAtMostOnce(presses)
    ensures presses[|presses| - 1] == Press(found, outcome) && presses[0].found == first
    ensures forall i :: 0 <= i < |presses| ==>
        (presses[i].outcome != Detached ==> chance(i).attached && chance(i).guarded == presses[i].outcome)
    ensures forall i :: 0 <= i < |presses| - 1 ==> chance(i).again == Some(presses[i + 1].found)
    ensures outcome == Detached ==> |presses| == STALE_RESULT_REFINDS + 1 || chance(|presses| - 1).again.None?
  {
    found, presses := first, [];
    var attempt := 0;
    while true
      invariant attempt == |presses| <= STALE_RESULT_REFINDS
      invariant forall i :: 0 <= i < |presses| ==> presses[i].outcome == Detached
      invariant forall i :: 0 <= i < |presses| - 1 ==> chance(i).again == Some(presses[i + 1].found)
      invariant if presses == [] then found == first else chance(|presses| - 1).again == Some(found) && presses[0].found == first
      decreases STALE_RESULT_REFINDS - attempt
    {
      outcome := Detached;
      if chance(attempt).attached {
        outcome := chance(attempt).guarded;
      }
      presses := presses + [Press(found, outcome)];
      if outcome != Detached || attempt >= STALE_RESULT_REFINDS {
        return;
      }
      var again := chance(attempt).again;
      if again.None? {
        return;
      }
      found := again.value;
      attempt := attempt + 1;
    }
  }
}
