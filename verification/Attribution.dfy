/** Which page marker owns a piece of evidence that was not captured on a click's step. */
module Attribution {
  import opened Wrappers
  import opened Order
  import opened UrlRelations
  import opened Evidence

  datatype Marker = Marker(stepIndex: int, url: string)

  predicate UrlMatchesMarker(read: UrlReader, candidate: string, markerUrl: string) {
    var r := ComputeUrlRelationship(read, Some(candidate), Some(markerUrl));
    r == ExactMatch || r == SamePhysicalPage || r == TrackingParametersOnly
  }

  predicate Matches(read: UrlReader, m: Marker, urls: seq<string>) {
    exists u :: u in urls && UrlMatchesMarker(read, u, m.url)
  }

  /** A text matches a marker when it is the marker's URL, or differs from it in tracking parameters alone, or is of its page. */
  lemma MatchExactly(read: UrlReader, candidate: string, markerUrl: string)
    requires candidate != "" && markerUrl != ""
    ensures UrlMatchesMarker(read, candidate, markerUrl) <==>
              candidate == markerUrl || SameButTracking(read, candidate, markerUrl) || SamePage(read, candidate, markerUrl)
  {
    RelationshipExactly(read, candidate, markerUrl);
  }

  function Distance(m: Marker, step: int): (steps: nat)
    ensures steps == step - m.stepIndex || steps == m.stepIndex - step
  {
    if m.stepIndex <= step then step - m.stepIndex else m.stepIndex - step
  }

  /** `i` is the lowest index among the matching markers nearest to `step`. */
  ghost predicate NearestMatch(read: UrlReader, markers: seq<Marker>, step: int, urls: seq<string>, i: nat) {
    && i < |markers| && Matches(read, markers[i], urls)
    && (forall j :: 0 <= j < |markers| && Matches(read, markers[j], urls) ==>
          Distance(markers[i], step) <= Distance(markers[j], step)
          && (j < i ==> Distance(markers[i], step) < Distance(markers[j], step)))
  }

  /** `i` is the last marker at or before `step`, or 0 when there is none. */
  predicate LastAtOrBefore(markers: seq<Marker>, step: int, i: nat) {
    && (i < |markers| || i == 0)
    && (forall j :: i < j < |markers| ==> markers[j].stepIndex > step)
    && (i > 0 ==> markers[i].stepIndex <= step)
  }

  ghost predicate Owns(read: UrlReader, markers: seq<Marker>, step: int, urls: seq<string>, i: nat) {
    if exists m :: m in markers && Matches(read, m, urls) then NearestMatch(read, markers, step, urls, i)
    else LastAtOrBefore(markers, step, i)
  }

  lemma OwnerUnique(read: UrlReader, markers: seq<Marker>, step: int, urls: seq<string>, i: nat, j: nat)
    requires Owns(read, markers, step, urls, i) && Owns(read, markers, step, urls, j)
    ensures i == j
  {}

  /** The two loops of the source: the best URL match so far, then the nearest preceding step. */
  method PickOwningMarkerIndex(read: UrlReader, markers: seq<Marker>, step: int, urls: seq<string>) returns (r: nat)
    ensures Owns(read, markers, step, urls, r)
  {
    var bestIndex, bestDistance := -1, 0;
    for i := 0 to |markers|
      invariant -1 <= bestIndex < i
      invariant bestIndex == -1 ==> forall j :: 0 <= j < i ==> !Matches(read, markers[j], urls)
      invariant bestIndex >= 0 ==> NearestMatch(read, markers[..i], step, urls, bestIndex)
      invariant bestIndex >= 0 ==> bestDistance == Distance(markers[bestIndex], step)
    {
      if Matches(read, markers[i], urls) {
        var distance := Distance(markers[i], step);
        if bestIndex == -1 || distance < bestDistance {
          bestIndex, bestDistance := i, distance;
        }
      }
      assert forall j :: 0 <= j < i ==> markers[..i + 1][j] == markers[..i][j];
    }
    assert markers[..|markers|] == markers;
    if bestIndex != -1 {
      assert markers[bestIndex] in markers;
      return bestIndex;
    }
    r := 0;
    for i := 0 to |markers|
      invariant r < |markers| || r == 0
      invariant r <= i
      invariant forall j :: r < j < i ==> markers[j].stepIndex > step
      invariant r > 0 ==> markers[r].stepIndex <= step
    {
      if markers[i].stepIndex <= step {
        r := i;
      }
    }
  }

  /** The owner as a function, for stating what attribution does to whole lists. */
  ghost function Owner(read: UrlReader, markers: seq<Marker>, step: int, urls: seq<string>): (i: nat)
    ensures Owns(read, markers, step, urls, i)
    ensures markers != [] ==> i < |markers|
  {
    OwnerExists(read, markers, step, urls);
    var i: nat :| Owns(read, markers, step, urls, i);
    i
  }

  lemma {:induction false} NearestExists(read: UrlReader, markers: seq<Marker>, step: int, urls: seq<string>) returns (i: nat)
    requires exists m :: m in markers && Matches(read, m, urls)
    ensures NearestMatch(read, markers, step, urls, i)
  {
    var front, last := markers[..|markers| - 1], |markers| - 1;
    if exists m :: m in front && Matches(read, m, urls) {
      var k := NearestExists(read, front, step, urls);
      assert forall j :: 0 <= j < |front| ==> front[j] == markers[j];
      if Matches(read, markers[last], urls) && Distance(markers[last], step) < Distance(markers[k], step) {
        i := last;
      } else {
        i := k;
      }
    } else {
      i := last;
      assert forall j :: 0 <= j < last ==> markers[j] in front;
    }
  }

  lemma {:induction false} LastExists(markers: seq<Marker>, step: int) returns (i: nat)
    ensures LastAtOrBefore(markers, step, i)
  {
    if markers == [] {
      i := 0;
    } else if markers[|markers| - 1].stepIndex <= step {
      i := |markers| - 1;
    } else {
      i := LastExists(markers[..|markers| - 1], step);
      assert i > 0 ==> markers[..|markers| - 1][i] == markers[i];
    }
  }

  lemma OwnerExists(read: UrlReader, markers: seq<Marker>, step: int, urls: seq<string>)
    ensures exists i: nat :: Owns(read, markers, step, urls, i)
  {
    if exists m :: m in markers && Matches(read, m, urls) {
      var i := NearestExists(read, markers, step, urls);
      assert Owns(read, markers, step, urls, i);
    } else {
      var i := LastExists(markers, step);
      assert Owns(read, markers, step, urls, i);
    }
  }

  // ---------------------------------------------------------------- the fallback and unsorted markers

  ghost predicate SortedMarkers(markers: seq<Marker>) {
    forall i, j :: 0 <= i < j < |markers| ==> markers[i].stepIndex <= markers[j].stepIndex
  }

  /** `i` is a marker at or before `step` that no other such marker is later than, or there is none and `i` is the first. */
  ghost predicate LatestAtOrBefore(markers: seq<Marker>, step: int, i: nat) {
    && i < |markers|
    && (if markers[i].stepIndex <= step
        then forall j :: 0 <= j < |markers| && markers[j].stepIndex <= step ==> markers[j].stepIndex <= markers[i].stepIndex
        else i == 0 && forall j :: 0 <= j < |markers| ==> markers[j].stepIndex > step)
  }

  /** Some marker lies at or before `step`, every one that does but the start marker lies before the start marker, and the
      start marker lies at or before `step` itself. */
  predicate StartMarkerPassedOver(markers: seq<Marker>, step: int)
    requires markers != []
  {
    && markers[0].stepIndex <= step
    && (exists k :: 1 <= k < |markers| && markers[k].stepIndex <= step)
    && (forall k :: 1 <= k < |markers| && markers[k].stepIndex <= step ==> markers[k].stepIndex < markers[0].stepIndex)
  }

  /** The caller sorts every marker but the first. The fallback then picks the latest marker at or before the evidence
      unless the start marker is the latest of them and others lie at or before the evidence too. */
  lemma FallbackIsLatestExactly(markers: seq<Marker>, step: int, i: nat)
    requires markers != [] && SortedMarkers(markers[1..])
    requires LastAtOrBefore(markers, step, i)
    ensures LatestAtOrBefore(markers, step, i) <==> !StartMarkerPassedOver(markers, step)
  {
    forall j | 1 <= j < i
      ensures markers[j].stepIndex <= markers[i].stepIndex
    {
      assert markers[1..][j - 1].stepIndex <= markers[1..][i - 1].stepIndex;
    }
  }

  /** Fully sorted markers never meet the exception. */
  lemma FallbackOnSortedMarkers(markers: seq<Marker>, step: int, i: nat)
    requires markers != [] && SortedMarkers(markers) && LastAtOrBefore(markers, step, i)
    ensures LatestAtOrBefore(markers, step, i)
  {}

  /** A first capture made at step 3 after a navigation logged at step 1: evidence from step 5 goes to the older page. */
  lemma StartMarkerCanBeLate()
    ensures var markers := [Marker(3, "start"), Marker(1, "later")];
            LastAtOrBefore(markers, 5, 1) && !LatestAtOrBefore(markers, 5, 1)
  {
    var markers := [Marker(3, "start"), Marker(1, "later")];
    assert markers[0].stepIndex == 3 && markers[1].stepIndex == 1;
  }

  // ---------------------------------------------------------------- partition

  /** The URLs a capture offers for matching: what a GA4 request says about its page, or the URL of the pushing page. */
  function CandidateUrls(env: Env, x: Capture): seq<string> {
    match x
    case Ga4(_, _, _, _, params, bodies, _) =>
      var f := ReadGa4Fields(env, params, bodies);
      Present(f.location) + Present(f.destination)
          + (if f.virtualMeta.Some? then Present(f.virtualMeta.value.virtualPageUrl) else [])
    case Push(_, url, _) => [url]
  }

  function Present(s: Option<string>): seq<string> {
    if Truthy(s) then [s.value] else []
  }

  /** The marker whose list an item joins; an item on a click's own step joins none. */
  ghost function OwnerOf(env: Env, markers: seq<Marker>, clickSteps: set<int>): Capture -> Option<nat> {
    (x: Capture) =>
      if x.meta.stepIndex in clickSteps then None else Some(Owner(env.read, markers, x.meta.stepIndex, CandidateUrls(env, x)))
  }

  function OwnedBy<T>(owner: T -> Option<nat>, m: nat): T -> bool {
    (x: T) => owner(x) == Some(m)
  }

  function Unowned<T>(owner: T -> Option<nat>): T -> bool {
    (x: T) => owner(x).None?
  }

  /** Each list holds, in order, the items its owner owns. */
  predicate FiledByOwner<T(==)>(lists: seq<seq<T>>, owner: T -> Option<nat>, xs: seq<T>) {
    forall m :: 0 <= m < |lists| ==> lists[m] == Filter(xs, OwnedBy(owner, m))
  }

  /** The attribution loop: one list a marker, filled in capture order. */
  method AttributeEvidence(env: Env, markers: seq<Marker>, clickSteps: set<int>, xs: seq<Capture>)
      returns (lists: seq<seq<Capture>>)
    requires markers != []
    ensures |lists| == |markers|
    ensures FiledByOwner(lists, OwnerOf(env, markers, clickSteps), xs)
  {
    lists := seq(|markers|, i => []);
    ghost var owner := OwnerOf(env, markers, clickSteps);
    for k := 0 to |xs|
      invariant |lists| == |markers|
      invariant FiledByOwner(lists, owner, xs[..k]) == true  // the equation keeps the definition folded
    {
      assert xs[..k + 1] == xs[..k] + [xs[k]];
      FileOne(lists, owner, xs[..k], xs[k]);
      if xs[k].meta.stepIndex !in clickSteps {
        var i := PickOwningMarkerIndex(env.read, markers, xs[k].meta.stepIndex, CandidateUrls(env, xs[k]));
        OwnerPicked(env, markers, clickSteps, xs[k], i);
        lists := lists[i := lists[i] + [xs[k]]];
      }
    }
    assert xs[..|xs|] == xs;
  }

  lemma OwnerPicked(env: Env, markers: seq<Marker>, clickSteps: set<int>, x: Capture, i: nat)
    requires markers != [] && x.meta.stepIndex !in clickSteps
    requires Owns(env.read, markers, x.meta.stepIndex, CandidateUrls(env, x), i)
    ensures OwnerOf(env, markers, clickSteps)(x) == Some(i) && i < |markers|
  {
    OwnerUnique(env.read, markers, x.meta.stepIndex, CandidateUrls(env, x), i,
                Owner(env.read, markers, x.meta.stepIndex, CandidateUrls(env, x)));
  }

  lemma FileOne<T>(lists: seq<seq<T>>, owner: T -> Option<nat>, xs: seq<T>, x: T)
    requires FiledByOwner(lists, owner, xs)
    ensures owner(x).None? ==> FiledByOwner(lists, owner, xs + [x])
    ensures owner(x).Some? && owner(x).value < |lists| ==>
              FiledByOwner(lists[owner(x).value := lists[owner(x).value] + [x]], owner, xs + [x])
  {
    forall m | 0 <= m < |lists|
      ensures Filter(xs + [x], OwnedBy(owner, m)) == if owner(x) == Some(m) then lists[m] + [x] else lists[m]
    {
      FilterSnoc(xs, x, OwnedBy(owner, m));
    }
  }

  /** All the items of all the lists. */
  function Together<T(==)>(lists: seq<seq<T>>): multiset<T> {
    if lists == [] then multiset{} else Together(lists[..|lists| - 1]) + multiset(lists[|lists| - 1])
  }

  lemma {:induction false} TogetherGains<T>(lists: seq<seq<T>>, m: nat, x: T)
    requires m < |lists|
    ensures Together(lists[m := lists[m] + [x]]) == Together(lists) + multiset{x}
  {
    var front, last, longer := lists[..|lists| - 1], |lists| - 1, lists[m := lists[m] + [x]];
    if m < last {
      TogetherGains(front, m, x);
      assert longer[..last] == front[m := front[m] + [x]];
    } else {
      assert longer[..last] == front;
    }
  }

  lemma {:induction false} TogetherEmpty<T>(lists: seq<seq<T>>)
    requires forall m :: 0 <= m < |lists| ==> lists[m] == []
    ensures Together(lists) == multiset{}
  {
    if lists != [] {
      TogetherEmpty(lists[..|lists| - 1]);
    }
  }

  lemma UnownedSnoc<T>(owner: T -> Option<nat>, xs: seq<T>, x: T)
    ensures multiset(Filter(xs + [x], Unowned(owner))) ==
              multiset(Filter(xs, Unowned(owner))) + if owner(x).None? then multiset{x} else multiset{}
  {
    FilterSnoc(xs, x, Unowned(owner));
  }

  lemma {:induction false} OwnersPartition<T>(lists: seq<seq<T>>, owner: T -> Option<nat>, xs: seq<T>)
    requires forall x :: x in xs && owner(x).Some? ==> owner(x).value < |lists|
    requires FiledByOwner(lists, owner, xs)
    ensures Together(lists) + multiset(Filter(xs, Unowned(owner))) == multiset(xs)
    decreases |xs|
  {
    if xs == [] {
      TogetherEmpty(lists);
    } else {
      var front, last := xs[..|xs| - 1], xs[|xs| - 1];
      assert xs == front + [last];
      var before := seq(|lists|, m requires 0 <= m < |lists| => Filter(front, OwnedBy(owner, m)));
      OwnersPartition(before, owner, front);
      FileOne(before, owner, front, last);
      UnownedSnoc(owner, front, last);
      if owner(last).Some? {
        TogetherGains(before, owner(last).value, last);
        assert lists == before[owner(last).value := before[owner(last).value] + [last]];
      } else {
        assert lists == before;
      }
    }
  }

  /** Attribution neither loses nor repeats evidence: the markers' lists together with the items on click steps are the
      whole capture list. */
  lemma AttributionPartitions(env: Env, markers: seq<Marker>, clickSteps: set<int>, xs: seq<Capture>, lists: seq<seq<Capture>>)
    requires markers != [] && |lists| == |markers| && FiledByOwner(lists, OwnerOf(env, markers, clickSteps), xs)
    ensures var owner := OwnerOf(env, markers, clickSteps);
            && Together(lists) + multiset(Filter(xs, Unowned(owner))) == multiset(xs)
            && forall x :: x in xs ==> (Unowned(owner)(x) <==> x.meta.stepIndex in clickSteps)
  {
    OwnersPartition(lists, OwnerOf(env, markers, clickSteps), xs);
  }
}
