/** The bounded record of the requests a page fires while a lookup or a submission is observed. */
module NetworkCapture {
  import opened Wrappers
  import opened Bounds
  import opened Order

  const MAX_REQUESTS_RETURNED: nat := 12
  const MAX_TRACKING_REQUESTS_KEPT: nat := 3
  const MAX_REQUESTS_OBSERVED: nat := 80
  const MAX_NON_TRACKING_REQUESTS_OBSERVED: nat := 200

  datatype Outcome = Pending | Completed | Failed

  /** `trackingAtStart` is the classification made when the request started, `tracking` the current one. */
  datatype Evidence = Evidence(request: nat, startedAt: int, trackingAtStart: bool, tracking: bool, outcome: Outcome)

  datatype Stats = Stats(totalObserved: nat, trackingRequestCount: nat, omittedRequestCount: nat)

  function IsTracking(): Evidence -> bool {
    (e: Evidence) => e.tracking
  }

  function IsNotTracking(): Evidence -> bool {
    (e: Evidence) => !e.tracking
  }

  function ByStart(): (Evidence, Evidence) -> bool {
    (a: Evidence, b: Evidence) => a.startedAt <= b.startedAt
  }

  function Take(xs: seq<Evidence>, n: nat): seq<Evidence> {
    xs[..Min(n, |xs|)]
  }

  /** How many entries were taken for tracking when they started. */
  function TrackingAtStart(es: seq<Evidence>): nat {
    if es == [] then 0 else TrackingAtStart(es[..|es| - 1]) + if es[|es| - 1].trackingAtStart then 1 else 0
  }

  lemma TrackingAtStartSnoc(es: seq<Evidence>, e: Evidence)
    ensures TrackingAtStart(es + [e]) == TrackingAtStart(es) + if e.trackingAtStart then 1 else 0
  {
    assert (es + [e])[..|es|] == es;
  }

  lemma {:induction false} TrackingAtStartUpdate(es: seq<Evidence>, i: nat, e: Evidence)
    requires i < |es| && e.trackingAtStart == es[i].trackingAtStart
    ensures TrackingAtStart(es[i := e]) == TrackingAtStart(es)
  {
    var front := es[..|es| - 1];
    if i < |front| {
      TrackingAtStartUpdate(front, i, e);
      assert es[i := e][..|es| - 1] == front[i := e];
    } else {
      assert es[i := e][..|es| - 1] == front;
    }
  }

  function KeptOthers(es: seq<Evidence>): seq<Evidence> {
    Take(Filter(es, IsNotTracking()), MAX_REQUESTS_RETURNED)
  }

  function KeptTracking(es: seq<Evidence>): seq<Evidence> {
    Take(Filter(es, IsTracking()), Min(MAX_TRACKING_REQUESTS_KEPT, MAX_REQUESTS_RETURNED - |KeptOthers(es)|))
  }

  /** What stop returns: non-tracking requests first, then a few tracking ones, in start order. */
  function Kept(es: seq<Evidence>): seq<Evidence> {
    StableSort(KeptOthers(es) + KeptTracking(es), ByStart())
  }

  /** Every entry's request has been seen; it is pending, at that position, exactly while its entry says so. */
  ghost predicate Indexed(entries: seq<Evidence>, pending: map<nat, nat>, seen: set<nat>) {
    && (forall id :: id in pending ==>
          pending[id] < |entries| && entries[pending[id]].request == id && entries[pending[id]].outcome == Pending)
    && (forall i :: 0 <= i < |entries| && entries[i].outcome == Pending ==>
        entries[i].request in pending && pending[entries[i].request] == i)
    && (forall i :: 0 <= i < |entries| ==> entries[i].request in seen)
  }

  /** A new entry may be added past eighty only when its request is not taken for tracking. */
  lemma Admitted(entries: seq<Evidence>, pending: map<nat, nat>, seen: set<nat>, e: Evidence)
    requires Indexed(entries, pending, seen) && e.request !in seen && e.outcome == Pending
    requires TrackingAtStart(entries) <= MAX_REQUESTS_OBSERVED && (e.trackingAtStart ==> |entries| < MAX_REQUESTS_OBSERVED)
    ensures Indexed(entries + [e], pending[e.request := |entries|], seen + {e.request})
    ensures TrackingAtStart(entries + [e]) <= MAX_REQUESTS_OBSERVED
  {
    TrackingAtStartSnoc(entries, e);
    TrackingBound(entries);
  }

  class Capture {
    var entries: seq<Evidence>
    var pending: map<nat, nat>
    var dropped: nat
    ghost var seen: set<nat>
    ghost var offered: nat

    /** Past eighty entries only non-tracking ones were added; every request offered is in an entry or was dropped. */
    ghost predicate Valid()
      reads this
    {
      && |entries| <= MAX_NON_TRACKING_REQUESTS_OBSERVED
      && Indexed(entries, pending, seen)
      && TrackingAtStart(entries) <= MAX_REQUESTS_OBSERVED
      && offered == |entries| + dropped
    }

    constructor ()
      ensures Valid() && entries == [] && dropped == 0 && seen == {} && offered == 0
    {
      entries, pending, dropped, seen, offered := [], map[], 0, {}, 0;
    }

    /** A request of a captured kind starts. One not classified as tracking is dropped only when the list is full, and by
        then at least 120 of the requests in it were not tracking when they started. */
    method OnRequest(request: nat, tracking: bool, now: int)
      requires Valid() && request !in seen
      modifies this
      ensures Valid() && seen == old(seen) + {request} && offered == old(offered) + 1
      ensures entries == old(entries) || entries == old(entries) + [Evidence(request, now, tracking, tracking, Pending)]
      ensures entries == old(entries) <==> dropped == old(dropped) + 1
      ensures entries == old(entries) && !tracking ==>
                |entries| == 200 && |entries| - TrackingAtStart(entries) >= 120
      ensures entries == old(entries) && tracking ==> |entries| >= 80
    {
      offered := offered + 1;
      if |entries| >= MAX_NON_TRACKING_REQUESTS_OBSERVED || (|entries| >= MAX_REQUESTS_OBSERVED && tracking) {
        seen, dropped := seen + {request}, dropped + 1;
        return;
      }
      var e := Evidence(request, now, tracking, tracking, Pending);
      Admitted(entries, pending, seen, e);
      pending := pending[request := |entries|];
      seen, entries := seen + {request}, entries + [e];
    }

    /** An answer settles a pending request and may reclassify it; anything else is ignored. */
    method OnResponse(request: nat, tracking: bool)
      requires Valid()
      modifies this
      ensures Valid() && seen == old(seen) && offered == old(offered) && dropped == old(dropped)
      ensures request !in pending && pending == old(pending) - {request}
      ensures |entries| == |old(entries)|
      ensures forall i :: 0 <= i < |entries| ==>
                entries[i] == if request in old(pending) && old(pending)[request] == i
                              then old(entries)[i].(outcome := Completed, tracking := tracking) else old(entries)[i]
    {
      if request in pending {
        var i := pending[request];
        TrackingAtStartUpdate(entries, i, entries[i].(outcome := Completed, tracking := tracking));
        entries := entries[i := entries[i].(outcome := Completed, tracking := tracking)];
        pending := pending - {request};
      } else {
        assert pending - {request} == pending;
      }
    }

    /** Once the body of an answer has been read, its request may be reclassified again. */
    method OnStructureRead(i: nat, tracking: bool)
      requires Valid() && i < |entries| && entries[i].outcome == Completed && !entries[i].tracking
      modifies this`entries
      ensures Valid() && entries == old(entries)[i := old(entries)[i].(tracking := tracking)]
    {
      TrackingAtStartUpdate(entries, i, entries[i].(tracking := tracking));
      entries := entries[i := entries[i].(tracking := tracking)];
    }

    method OnRequestFailed(request: nat)
      requires Valid()
      modifies this
      ensures Valid() && seen == old(seen) && offered == old(offered) && dropped == old(dropped)
      ensures request !in pending && pending == old(pending) - {request}
      ensures |entries| == |old(entries)|
      ensures forall i :: 0 <= i < |entries| ==>
                entries[i] == if request in old(pending) && old(pending)[request] == i
                              then old(entries)[i].(outcome := Failed) else old(entries)[i]
    {
      if request in pending {
        var i := pending[request];
        TrackingAtStartUpdate(entries, i, entries[i].(outcome := Failed));
        entries := entries[i := entries[i].(outcome := Failed)];
        pending := pending - {request};
      } else {
        assert pending - {request} == pending;
      }
    }

    /** Every captured request is accounted for: returned, or counted as omitted. */
    method Stop() returns (kept: seq<Evidence>, stats: Stats)
      requires Valid()
      ensures kept == Kept(entries)
      ensures stats.totalObserved == offered && |kept| + stats.omittedRequestCount == offered
      ensures stats.trackingRequestCount == |Filter(entries, IsTracking())|
    {
      KeptBounds(entries);
      kept := Kept(entries);
      var total := |entries| + dropped;
      stats := Stats(total, |Filter(entries, IsTracking())|, total - |kept|);
    }
  }

  lemma {:induction false} TrackingBound(es: seq<Evidence>)
    ensures TrackingAtStart(es) <= |es|
  {
    if es != [] {
      TrackingBound(es[..|es| - 1]);
    }
  }

  lemma {:induction false} FilterSizes(es: seq<Evidence>)
    ensures |Filter(es, IsTracking())| + |Filter(es, IsNotTracking())| == |es|
  {
    if es != [] {
      FilterSizes(es[1..]);
    }
  }

  lemma StartOrder()
    ensures TotalPreorder(ByStart())
  {}

  lemma TakeMembers(xs: seq<Evidence>, n: nat)
    ensures forall e :: e in Take(xs, n) ==> e in xs
    ensures |xs| <= n ==> Take(xs, n) == xs
  {}

  lemma KeptGroups(es: seq<Evidence>)
    ensures forall e :: e in KeptOthers(es) ==> e in es && !e.tracking
    ensures forall e :: e in KeptTracking(es) ==> e in es && e.tracking
    ensures |Filter(es, IsNotTracking())| <= MAX_REQUESTS_RETURNED ==> forall e :: e in es && !e.tracking ==> e in KeptOthers(es)
    ensures |KeptOthers(es)| + |KeptTracking(es)| <= |es|
  {
    FilterSizes(es);
    FilterMembers(es, IsNotTracking());
    FilterMembers(es, IsTracking());
    TakeMembers(Filter(es, IsNotTracking()), MAX_REQUESTS_RETURNED);
    TakeMembers(Filter(es, IsTracking()), Min(MAX_TRACKING_REQUESTS_KEPT, MAX_REQUESTS_RETURNED - |KeptOthers(es)|));
  }

  lemma KeptMembers(es: seq<Evidence>)
    ensures |Kept(es)| == |KeptOthers(es)| + |KeptTracking(es)|
    ensures forall e :: e in Kept(es) <==> e in KeptOthers(es) || e in KeptTracking(es)
  {
    SameMembers(Kept(es), KeptOthers(es) + KeptTracking(es));
  }

  /** At most twelve requests are returned, in start order. A non-tracking request is left out only when twelve others of
      its kind are returned and no tracking one is. */
  lemma KeptBounds(es: seq<Evidence>)
    ensures var kept := Kept(es);
            && |kept| <= 12 && |kept| <= |es| && SortedBy(kept, ByStart())
            && (forall e :: e in kept ==> e in es)
            && (if |Filter(es, IsNotTracking())| <= 12
                then forall e :: e in es && !e.tracking ==> e in kept
                else |kept| == 12 && forall e :: e in kept ==> !e.tracking)
  {
    KeptGroups(es);
    KeptMembers(es);
    StartOrder();
    StableSortSorted(KeptOthers(es) + KeptTracking(es), ByStart());
  }

  /** At most three of the requests returned are tracking. */
  lemma FewTrackingKept(es: seq<Evidence>)
    ensures |Filter(Kept(es), IsTracking())| <= 3
  {
    TrackingInKept(es);
    KeptSizes(es);
  }

  lemma KeepsEarly(es: seq<Evidence>, p: Evidence -> bool, i: nat, n: nat)
    requires i < |es| && p(es[i]) && |Filter(es[..i], p)| < n
    ensures es[i] in Take(Filter(es, p), n)
  {
    var before, after := Filter(es[..i], p), Filter(es[i + 1..], p);
    assert es == es[..i] + ([es[i]] + es[i + 1..]);
    FilterConcat(es[..i], [es[i]] + es[i + 1..], p);
    assert ([es[i]] + es[i + 1..])[1..] == es[i + 1..];
    var all := Filter(es, p);
    assert all == before + ([es[i]] + after);
    assert all[|before|] == es[i];
    assert Take(all, n)[|before|] == es[i];
  }

  /** The first twelve non-tracking requests are returned, and of the tracking ones as many of the first three as there is room
      for. */
  lemma EarlyOnesKept(es: seq<Evidence>, i: nat)
    requires i < |es|
    ensures !es[i].tracking && |Filter(es[..i], IsNotTracking())| < 12 ==> es[i] in Kept(es)
    ensures var earlier := |Filter(es[..i], IsTracking())|;
            es[i].tracking && earlier < 3 && earlier + |Filter(es, IsNotTracking())| < 12 ==> es[i] in Kept(es)
  {
    KeptMembers(es);
    if !es[i].tracking && |Filter(es[..i], IsNotTracking())| < 12 {
      KeepsEarly(es, IsNotTracking(), i, 12);
    }
    if es[i].tracking && |Filter(es[..i], IsTracking())| < 3
        && |Filter(es[..i], IsTracking())| + |Filter(es, IsNotTracking())| < 12 {
      KeepsEarly(es, IsTracking(), i, Min(MAX_TRACKING_REQUESTS_KEPT, MAX_REQUESTS_RETURNED - |KeptOthers(es)|));
    }
  }

  /** So how many of either kind are returned is known: of the tracking ones three, or all, or what room the others leave. */
  lemma KeptExactly(es: seq<Evidence>)
    ensures |Filter(Kept(es), IsNotTracking())| == Min(12, |Filter(es, IsNotTracking())|)
    ensures |Filter(Kept(es), IsTracking())| ==
              Min(Min(3, |Filter(es, IsTracking())|), 12 - Min(12, |Filter(es, IsNotTracking())|))
  {
    KeptSizes(es);
    TrackingInKept(es);
    KeptMembers(es);
    FilterSizes(Kept(es));
  }

  lemma KeptSizes(es: seq<Evidence>)
    ensures |KeptOthers(es)| == Min(12, |Filter(es, IsNotTracking())|)
    ensures |KeptTracking(es)| == Min(Min(3, |Filter(es, IsTracking())|), 12 - |KeptOthers(es)|)
  {}

  lemma TrackingInKept(es: seq<Evidence>)
    ensures |Filter(Kept(es), IsTracking())| == |KeptTracking(es)|
  {
    var others, tracking := KeptOthers(es), KeptTracking(es);
    KeptGroups(es);
    FilterConcat(others, tracking, IsTracking());
    NoneTracking(others);
    AllTracking(tracking);
    FilterPermutation(Kept(es), others + tracking);
    assert [] + tracking == tracking;
  }

  lemma {:induction false} AllTracking(es: seq<Evidence>)
    requires forall e :: e in es ==> e.tracking
    ensures Filter(es, IsTracking()) == es
  {
    if es != [] {
      AllTracking(es[1..]);
      assert [es[0]] + es[1..] == es;
    }
  }

  lemma {:induction false} NoneTracking(es: seq<Evidence>)
    requires forall e :: e in es ==> !e.tracking
    ensures Filter(es, IsTracking()) == []
  {
    if es != [] {
      NoneTracking(es[1..]);
    }
  }

  /** Reordering does not change how many entries are tracking. */
  lemma FilterPermutation(xs: seq<Evidence>, ys: seq<Evidence>)
    requires multiset(xs) == multiset(ys)
    ensures |Filter(xs, IsTracking())| == |Filter(ys, IsTracking())|
  {
    FilterMultiset(xs, IsTracking());
    FilterMultiset(ys, IsTracking());
    var fx, fy := multiset(Filter(xs, IsTracking())), multiset(Filter(ys, IsTracking()));
    assert fx == fy;
    assert |fx| == |Filter(xs, IsTracking())| && |fy| == |Filter(ys, IsTracking())|;
  }
}
