/** Which field a dealer-lookup trigger button belongs to: structure first, pixels to break ties. */
module TriggerAssociation {
  import opened Wrappers
  import opened DomTree

  const MAX_ANCESTOR_HOPS := 20
  const MAX_PIXEL_DISTANCE := 600.0
  const ANCESTOR_HOP_WEIGHT := 600.0

  /** `controls` are the ids in aria-controls and aria-owns. */
  datatype Trigger = Trigger(node: int, domId: string, controls: seq<string>)

  /** A field with its measured pixel distance from the trigger at hand. */
  datatype Field = Field(node: int, id: string, domId: string, describedBy: seq<string>, pixels: real)

  /** The form's trigger and fields are elements inside it; tagging gave each field its own id. */
  ghost predicate Tagged(d: Dom, form: int, t: Trigger, fields: seq<Field>) {
    && Valid(d) && Contains(d, form, t.node)
    && (forall i :: 0 <= i < |fields| ==> Contains(d, form, fields[i].node) && fields[i].pixels >= 0.0)
    && (forall i, j :: 0 <= i < j < |fields| ==> fields[i].id != fields[j].id)
  }

  predicate AriaMatch(t: Trigger, f: Field) {
    f.node != t.node && ((f.domId != "" && f.domId in t.controls) || (t.domId != "" && t.domId in f.describedBy))
  }

  function HopsTo(d: Dom, t: Trigger, f: Field): Option<nat>
    requires Valid(d)
  {
    Hops(d, t.node, f.node)
  }

  /** Near enough on both measures; the trigger itself is never its own field. */
  predicate Accepted(d: Dom, t: Trigger, f: Field)
    requires Valid(d)
  {
    f.node != t.node && HopsTo(d, t, f).Some? && HopsTo(d, t, f).value <= MAX_ANCESTOR_HOPS && f.pixels <= MAX_PIXEL_DISTANCE
  }

  function Score(d: Dom, t: Trigger, f: Field): real
    requires Valid(d) && HopsTo(d, t, f).Some?
  {
    HopsTo(d, t, f).value as real * ANCESTOR_HOP_WEIGHT + f.pixels
  }

  /** A field is accepted when it is another element at most twenty links and 600 px away, and scores 600 for each link of the
      shortest path and one for each pixel. */
  lemma AcceptedExactly(d: Dom, form: int, t: Trigger, f: Field, p: seq<int>)
    requires Valid(d) && Contains(d, form, t.node) && Contains(d, form, f.node)
    requires Path(d, p, t.node, f.node) && forall q :: Path(d, q, t.node, f.node) ==> |p| <= |q|
    ensures Accepted(d, t, f) <==> f.node != t.node && |p| - 1 <= 20 && f.pixels <= 600.0
    ensures HopsTo(d, t, f).Some? && Score(d, t, f) == 600.0 * (|p| - 1) as real + f.pixels
  {
    HopsIsDistance(d, form, t.node, f.node);
    var q :| Path(d, q, t.node, f.node) && |q| - 1 == Hops(d, t.node, f.node).value;
    assert |p| <= |q|;
  }

  /** Field `k` is the first of the least-scoring accepted fields among the first `n`. */
  ghost predicate LeastScore(d: Dom, t: Trigger, fields: seq<Field>, n: nat, k: nat)
    requires Valid(d) && n <= |fields|
  {
    && k < n && Accepted(d, t, fields[k])
    && forall j :: 0 <= j < n && Accepted(d, t, fields[j]) ==>
         Score(d, t, fields[k]) <= Score(d, t, fields[j]) && (Score(d, t, fields[k]) == Score(d, t, fields[j]) ==> k <= j)
  }

  ghost predicate NoneAccepted(d: Dom, t: Trigger, fields: seq<Field>, n: nat)
    requires Valid(d) && n <= |fields|
  {
    forall j :: 0 <= j < n ==> !Accepted(d, t, fields[j])
  }

  /** The field an ARIA reference names, when some does: the first in document order. */
  ghost predicate FirstAria(t: Trigger, fields: seq<Field>, k: nat) {
    k < |fields| && AriaMatch(t, fields[k]) && forall j :: 0 <= j < k ==> !AriaMatch(t, fields[j])
  }

  ghost predicate NoAria(t: Trigger, fields: seq<Field>, n: nat)
    requires n <= |fields|
  {
    forall j :: 0 <= j < n ==> !AriaMatch(t, fields[j])
  }

  /** The decision loop; the answer is a place in the list of fields. */
  method AssociateField(d: Dom, form: int, t: Trigger, fields: seq<Field>) returns (winner: Option<nat>, aria: bool)
    requires Tagged(d, form, t, fields)
    ensures aria <==> !NoAria(t, fields, |fields|)
    ensures aria ==> winner.Some? && FirstAria(t, fields, winner.value)
    ensures aria ==> var f := fields[winner.value];
                     f.node != t.node && (f.domId in t.controls || t.domId in f.describedBy)
    ensures forall j :: 0 <= j < |fields| ==>
              var f := fields[j];
              f.node != t.node && ((f.domId != "" && f.domId in t.controls) || (t.domId != "" && t.domId in f.describedBy)) ==>
                aria && winner.value <= j
    ensures !aria && winner.Some? ==> LeastScore(d, t, fields, |fields|, winner.value)
    ensures !aria && winner.None? ==> NoneAccepted(d, t, fields, |fields|)
  {
    winner, aria := None, false;
    var bestScore := 0.0;
    for f := 0 to |fields|
      invariant !aria && NoAria(t, fields, f)
      invariant winner.None? ==> NoneAccepted(d, t, fields, f)
      invariant winner.Some? ==> LeastScore(d, t, fields, f, winner.value) && bestScore == Score(d, t, fields[winner.value])
    {
      var field := fields[f];
      if field.node == t.node {
        continue;
      }
      if AriaMatch(t, field) {
        return Some(f), true;
      }
      var hops := MeasureHops(d, form, t.node, field.node);
      if hops.value > MAX_ANCESTOR_HOPS || field.pixels > MAX_PIXEL_DISTANCE {
        continue;
      }
      var score := hops.value as real * ANCESTOR_HOP_WEIGHT + field.pixels;
      if winner.None? || score < bestScore {
        bestScore := score;
        winner := Some(f);
      }
    }
  }

  // ---------------------------------------------------------------- structure decides, save for one tie

  ghost predicate FewestHops(d: Dom, t: Trigger, fields: seq<Field>, k: nat)
    requires Valid(d) && k < |fields| && Accepted(d, t, fields[k])
  {
    forall j :: 0 <= j < |fields| && Accepted(d, t, fields[j]) ==> HopsTo(d, t, fields[k]).value <= HopsTo(d, t, fields[j]).value
  }

  predicate Nearer(d: Dom, t: Trigger, f: Field, g: Field)
    requires Valid(d) && HopsTo(d, t, f).Some? && HopsTo(d, t, g).Some?
  {
    HopsTo(d, t, f).value < HopsTo(d, t, g).value
  }

  /** Field `b` sits exactly on the trigger's centre, and every nearer field comes later, one hop nearer, at the cutoff. */
  ghost predicate TiedAtTheCutoff(d: Dom, t: Trigger, fields: seq<Field>, b: nat)
    requires Valid(d)
  {
    && b < |fields| && Accepted(d, t, fields[b]) && fields[b].pixels == 0.0
    && (exists j :: 0 <= j < |fields| && Accepted(d, t, fields[j]) && Nearer(d, t, fields[j], fields[b]))
    && forall j :: 0 <= j < |fields| && Accepted(d, t, fields[j]) && Nearer(d, t, fields[j], fields[b]) ==>
         b < j && HopsTo(d, t, fields[j]).value + 1 == HopsTo(d, t, fields[b]).value && fields[j].pixels == MAX_PIXEL_DISTANCE
  }

  lemma ScoreGap(h: nat, g: nat, p: real, q: real)
    requires h < g && 0.0 <= p <= MAX_PIXEL_DISTANCE && 0.0 <= q
    ensures h as real * ANCESTOR_HOP_WEIGHT + p <= g as real * ANCESTOR_HOP_WEIGHT + q
    ensures h as real * ANCESTOR_HOP_WEIGHT + p == g as real * ANCESTOR_HOP_WEIGHT + q
            ==> h + 1 == g && p == MAX_PIXEL_DISTANCE && q == 0.0
    ensures h + 1 == g && p == MAX_PIXEL_DISTANCE && q == 0.0
            ==> h as real * ANCESTOR_HOP_WEIGHT + p == g as real * ANCESTOR_HOP_WEIGHT + q
  {
    var gap := g - h;
    assert g as real == h as real + gap as real;
    assert g as real * ANCESTOR_HOP_WEIGHT == h as real * ANCESTOR_HOP_WEIGHT + gap as real * ANCESTOR_HOP_WEIGHT;
    if gap >= 2 {
      assert gap as real * ANCESTOR_HOP_WEIGHT >= 2.0 * ANCESTOR_HOP_WEIGHT;
    }
  }

  /** The winner has the fewest hops of all accepted fields exactly when no such tie is present. */
  lemma FewestHopsExactly(d: Dom, t: Trigger, fields: seq<Field>, k: nat)
    requires Valid(d) && (forall i :: 0 <= i < |fields| ==> fields[i].pixels >= 0.0)
    requires LeastScore(d, t, fields, |fields|, k)
    ensures FewestHops(d, t, fields, k) <==> !(exists b :: TiedAtTheCutoff(d, t, fields, b))
  {
    forall j | 0 <= j < |fields| && Accepted(d, t, fields[j]) && Nearer(d, t, fields[j], fields[k])
      ensures k < j && HopsTo(d, t, fields[j]).value + 1 == HopsTo(d, t, fields[k]).value
      ensures fields[j].pixels == MAX_PIXEL_DISTANCE && fields[k].pixels == 0.0
    {
      ScoreGap(HopsTo(d, t, fields[j]).value, HopsTo(d, t, fields[k]).value, fields[j].pixels, fields[k].pixels);
    }
    if !FewestHops(d, t, fields, k) {
      assert TiedAtTheCutoff(d, t, fields, k);
    }
    forall b | TiedAtTheCutoff(d, t, fields, b)
      ensures !FewestHops(d, t, fields, k)
    {
      TieBeatsTheNearest(d, t, fields, k, b);
    }
  }

  lemma TieBeatsTheNearest(d: Dom, t: Trigger, fields: seq<Field>, k: nat, b: nat)
    requires Valid(d) && (forall i :: 0 <= i < |fields| ==> fields[i].pixels >= 0.0)
    requires LeastScore(d, t, fields, |fields|, k) && TiedAtTheCutoff(d, t, fields, b)
    ensures !FewestHops(d, t, fields, k)
  {
    var j :| 0 <= j < |fields| && Accepted(d, t, fields[j]) && Nearer(d, t, fields[j], fields[b]);
    ScoreGap(HopsTo(d, t, fields[j]).value, HopsTo(d, t, fields[b]).value, fields[j].pixels, fields[b].pixels);
  }

  /** A form where the rule "one hop outweighs any pixels" fails: the further field wins the tie. */
  lemma OneHopCanLose(d: Dom, t: Trigger, further: Field, nearer: Field)
    requires d == Dom([-1, 0, 0, 2, 2])
    requires t == Trigger(3, "", [])
    requires further == Field(1, "a", "", [], 0.0) && nearer == Field(4, "b", "", [], 600.0)
    ensures Tagged(d, 0, t, [further, nearer])
    ensures HopsTo(d, t, further) == Some(3) && HopsTo(d, t, nearer) == Some(2)
    ensures LeastScore(d, t, [further, nearer], 2, 0)
  {
    assert Contains(d, 0, 0) && Contains(d, 0, 2) && Contains(d, 2, 4) && Contains(d, 2, 2);
    assert !Contains(d, 2, 1) && !Contains(d, 3, 1) && !Contains(d, 3, 4);
    assert Climb(d, 2, 0) == 1 && Climb(d, 3, 0) == 2;
    assert Meet(d, 3, 1) == Meet(d, 2, 1) == Meet(d, 0, 1) == Some(0);
    assert Meet(d, 3, 4) == Meet(d, 2, 4) == Some(2);
  }

  // ---------------------------------------------------------------- the diagnostic pass

  datatype Reason = Winner | SameElement | Rejected(noSharedAncestor: bool, hopsOver: bool, pixelsOver: bool) | AriaElsewhere
      | Outscored

  datatype PairDebug = PairDebug(id: string, accepted: bool, isWinner: bool, finalScore: Option<real>, reason: Reason)

  predicate DebugAccepted(d: Dom, t: Trigger, f: Field)
    requires Valid(d)
  {
    AriaMatch(t, f) || Accepted(d, t, f)
  }

  /** The second pass over the same fields, which never stops early and knows the answer only by its id. */
  method DebugPass(d: Dom, form: int, t: Trigger, fields: seq<Field>, adjacent: Option<string>, aria: bool)
      returns (pairs: seq<PairDebug>)
    requires Tagged(d, form, t, fields)
    ensures |pairs| == |fields|
    ensures forall f :: 0 <= f < |fields| ==> pairs[f] == PairOf(d, t, fields[f], adjacent, aria)
  {
    pairs := [];
    for f := 0 to |fields|
      invariant |pairs| == f
      invariant forall g :: 0 <= g < f ==> pairs[g] == PairOf(d, t, fields[g], adjacent, aria)
    {
      var field := fields[f];
      var self := field.node == t.node;
      var ariaMatches := !self && ((field.domId != "" && field.domId in t.controls)
          || (t.domId != "" && t.domId in field.describedBy));
      var hops := MeasureHops(d, form, t.node, field.node);
      var passedAncestor := !self && hops.Some? && hops.value <= MAX_ANCESTOR_HOPS;
      var passedPixel := !self && field.pixels <= MAX_PIXEL_DISTANCE;
      var accepted := !self && (ariaMatches || (passedAncestor && passedPixel));
      var isWinner := !self && adjacent == Some(field.id);
      var finalScore :=
        if !accepted then None
        else if ariaMatches then Some(0.0) else Some(hops.value as real * ANCESTOR_HOP_WEIGHT + field.pixels);
      var reason :=
        if self then SameElement
        else if !accepted then Rejected(hops.None?, !passedAncestor, !passedPixel)
        else if isWinner then Winner
        else if aria then AriaElsewhere else Outscored;
      pairs := pairs + [PairDebug(field.id, accepted, isWinner, finalScore, reason)];
    }
  }

  function PairOf(d: Dom, t: Trigger, f: Field, adjacent: Option<string>, aria: bool): PairDebug
    requires Valid(d)
  {
    var isWinner := f.node != t.node && adjacent == Some(f.id);
    PairDebug(
      f.id,
      DebugAccepted(d, t, f),
      isWinner,
      if AriaMatch(t, f) then Some(0.0) else if Accepted(d, t, f) then Some(Score(d, t, f)) else None,
      if f.node == t.node then SameElement
      else if !DebugAccepted(d, t, f) then Rejected(HopsTo(d, t, f).None?,
          HopsTo(d, t, f).None? || HopsTo(d, t, f).value > MAX_ANCESTOR_HOPS, f.pixels > MAX_PIXEL_DISTANCE)
      else if isWinner then Winner
      else if aria then AriaElsewhere else Outscored)
  }

  /**
   * Both passes over one trigger: some pair is marked the winner exactly when some pair is accepted, it
   * is one pair, it is accepted, and no pair has a lower final score.
   */
  method AssociateAndExplain(d: Dom, form: int, t: Trigger, fields: seq<Field>)
    returns (winner: Option<nat>, pairs: seq<PairDebug>)
    requires Tagged(d, form, t, fields)
    ensures |pairs| == |fields|
    ensures winner.Some? <==> exists f :: 0 <= f < |pairs| && pairs[f].accepted
    ensures forall f :: 0 <= f < |pairs| ==> (pairs[f].isWinner <==> winner == Some(f))
    ensures forall f :: 0 <= f < |pairs| ==> (pairs[f].reason == Winner <==> pairs[f].isWinner)
    ensures forall f :: 0 <= f < |pairs| ==> (pairs[f].finalScore.Some? <==> pairs[f].accepted)
    ensures winner.Some? ==>
      && winner.value < |pairs|
      && pairs[winner.value].accepted
      && forall f :: 0 <= f < |pairs| && pairs[f].accepted ==> pairs[winner.value].finalScore.value <= pairs[f].finalScore.value
  {
    var aria;
    winner, aria := AssociateField(d, form, t, fields);
    var adjacent := if winner.Some? then Some(fields[winner.value].id) else None;
    pairs := DebugPass(d, form, t, fields, adjacent, aria);
    assert forall f :: 0 <= f < |fields| ==> (pairs[f].accepted <==> DebugAccepted(d, t, fields[f]));
    assert forall f :: 0 <= f < |fields| ==> (adjacent == Some(fields[f].id) <==> winner == Some(f));
  }

  // ---------------------------------------------------------------- one trigger for each field

  /** A trigger as found on the page: whether its text speaks of a lookup, and the field it belongs to. */
  datatype Found = Found(index: string, matchesVocabulary: bool, adjacent: Option<string>)

  predicate Claims(t: Found, field: string) {
    t.adjacent == Some(field) && field != ""
  }

  predicate ClaimsAs(t: Found, field: string, worded: bool) {
    Claims(t, field) && (worded ==> t.matchesVocabulary)
  }

  /** Trigger `k` is the first of those for `field`, only counting triggers with lookup wording if `worded`. */
  ghost predicate FirstClaim(triggers: seq<Found>, n: nat, field: string, worded: bool, k: int)
    requires n <= |triggers|
  {
    0 <= k < n && ClaimsAs(triggers[k], field, worded) && forall j :: 0 <= j < k ==> !ClaimsAs(triggers[j], field, worded)
  }

  ghost predicate Claimed(triggers: seq<Found>, n: nat, field: string, worded: bool)
    requires n <= |triggers|
  {
    exists k :: FirstClaim(triggers, n, field, worded, k)
  }

  lemma {:induction false} SomeClaim(triggers: seq<Found>, n: nat, field: string, worded: bool, k: nat)
    requires k < n <= |triggers| && ClaimsAs(triggers[k], field, worded)
    ensures Claimed(triggers, n, field, worded)
  {
    if j: nat :| j < k && ClaimsAs(triggers[j], field, worded) {
      SomeClaim(triggers, n, field, worded, j);
    } else {
      assert FirstClaim(triggers, n, field, worded, k);
    }
  }

  /** What the first `n` triggers leave a field with: the trigger it had, else the first that claims it, else none. */
  ghost predicate AsClaimed(triggers: seq<Found>, n: nat, worded: bool, before: map<string, string>, chosen: map<string, string>,
      field: string)
    requires n <= |triggers|
  {
    if field in before then field in chosen && chosen[field] == before[field]
    else
      && (field in chosen <==> Claimed(triggers, n, field, worded))
      && forall k :: FirstClaim(triggers, n, field, worded, k) ==> field in chosen && chosen[field] == triggers[k].index
  }

  lemma ClaimStep(triggers: seq<Found>, i: nat, worded: bool, before: map<string, string>, was: map<string, string>,
                  chosen: map<string, string>, field: string)
    requires i < |triggers| && AsClaimed(triggers, i, worded, before, was, field)
    requires if field !in was && ClaimsAs(triggers[i], field, worded) then field in chosen && chosen[field] == triggers[i].index
             else field in chosen <==> field in was
    requires field in was ==> chosen[field] == was[field]
    ensures AsClaimed(triggers, i + 1, worded, before, chosen, field)
  {
    if field !in before {
      if k :| FirstClaim(triggers, i, field, worded, k) {
        assert FirstClaim(triggers, i + 1, field, worded, k);
      } else if ClaimsAs(triggers[i], field, worded) {
        forall j: nat | j < i
          ensures !ClaimsAs(triggers[j], field, worded)
        {
          if ClaimsAs(triggers[j], field, worded) { SomeClaim(triggers, i, field, worded, j); }
        }
        assert FirstClaim(triggers, i + 1, field, worded, i);
      }
    }
  }

  /** One pass over the triggers, filling in fields that have none yet. */
  method ClaimPass(triggers: seq<Found>, worded: bool, before: map<string, string>) returns (chosen: map<string, string>)
    ensures forall field :: AsClaimed(triggers, |triggers|, worded, before, chosen, field)
  {
    chosen := before;
    for i := 0 to |triggers|
      invariant forall field :: AsClaimed(triggers, i, worded, before, chosen, field)
    {
      var t := triggers[i];
      ghost var was := chosen;
      if t.adjacent.Some? && t.adjacent.value != "" && (worded ==> t.matchesVocabulary) && t.adjacent.value !in chosen {
        chosen := chosen[t.adjacent.value := t.index];
      }
      ghost var n := i + 1;
      forall field
        ensures AsClaimed(triggers, n, worded, before, chosen, field)
      {
        ClaimStep(triggers, i, worded, before, was, chosen, field);
      }
    }
  }

  lemma BothPasses(triggers: seq<Found>, worded: map<string, string>, chosen: map<string, string>, field: string)
    requires AsClaimed(triggers, |triggers|, true, map[], worded, field)
        && AsClaimed(triggers, |triggers|, false, worded, chosen, field)
    ensures field in chosen <==> exists k :: 0 <= k < |triggers| && Claims(triggers[k], field)
    ensures field in chosen ==>
      exists k :: FirstClaim(triggers, |triggers|, field, Claimed(triggers, |triggers|, field, true), k)
          && chosen[field] == triggers[k].index
  {
    var n := |triggers|;
    if k: nat :| k < n && Claims(triggers[k], field) {
      assert ClaimsAs(triggers[k], field, false);
      SomeClaim(triggers, n, field, false, k);
    }
    if field in worded {
      var k :| FirstClaim(triggers, n, field, true, k);
      assert ClaimsAs(triggers[k], field, true);
      SomeClaim(triggers, n, field, false, k);
    }
  }

  /** Both passes: a trigger with lookup wording always wins its field, otherwise the first that claims it. */
  method ChooseTriggers(triggers: seq<Found>) returns (chosen: map<string, string>)
    ensures forall field :: field in chosen <==> exists k :: 0 <= k < |triggers| && Claims(triggers[k], field)
    ensures forall field :: field in chosen ==>
      exists k :: FirstClaim(triggers, |triggers|, field, Claimed(triggers, |triggers|, field, true), k)
          && chosen[field] == triggers[k].index
  {
    var worded := ClaimPass(triggers, true, map[]);
    chosen := ClaimPass(triggers, false, worded);
    ghost var n := |triggers|;
    forall field
      ensures field in chosen <==> exists k :: 0 <= k < n && Claims(triggers[k], field)
      ensures field in chosen ==>
        exists k :: FirstClaim(triggers, n, field, Claimed(triggers, n, field, true), k) && chosen[field] == triggers[k].index
    {
      BothPasses(triggers, worded, chosen, field);
    }
  }
}
