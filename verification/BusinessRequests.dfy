/** Which captured requests are the lead submission itself, and what the decisive one says. */
module BusinessRequests {
  import opened Wrappers
  import opened Order

  datatype Outcome = Completed | Failed | Pending

  datatype Purpose =
    | EmailValidation | FormConfiguration | LocationLookup | DealerLookup | LocationResults | DealerResults
    | EmptyResults | ValidationError | ServerError | UnrelatedTracking | Unknown

  /** `host` is None when the endpoint cannot be parsed. */
  datatype Request = Request(
    httpMethod: string, host: Option<string>, resourceType: string, purpose: Purpose, status: Option<int>, outcome: Outcome)

  datatype Site = Site(pageHost: Option<string>, actionHost: Option<string>, sameDomain: (string, string) -> bool,
      upper: string -> string)

  datatype Tier = Primary | Secondary | NotBusiness

  function ClassifyBusinessRequest(site: Site, r: Request): Tier {
    if r.purpose == UnrelatedTracking then NotBusiness
    else if r.resourceType !in {"xhr", "fetch", "document", "other"} then NotBusiness
    else if r.host.None? then NotBusiness
    else
      var viaAction := r.host == site.actionHost;
      var sameSite := site.pageHost.Some? && (r.host == site.pageHost || site.sameDomain(r.host.value, site.pageHost.value));
      if !viaAction && !sameSite then NotBusiness
      else if site.upper(r.httpMethod) in {"POST", "PUT", "PATCH"} || r.resourceType == "document" then Primary
      else if r.purpose in {FormConfiguration, LocationLookup, LocationResults, DealerLookup, DealerResults, EmailValidation}
          then NotBusiness
      else Secondary
  }

  function InTier(site: Site, tier: Tier): Request -> bool {
    (r: Request) => ClassifyBusinessRequest(site, r) == tier
  }

  function SelectBusinessRequests(site: Site, rs: seq<Request>): seq<Request> {
    var primary := Filter(rs, InTier(site, Primary));
    if primary != [] then primary else Filter(rs, InTier(site, Secondary))
  }

  /** A page read is taken for the submission only when no state-changing request exists; nothing sent to a third party
      or classified as tracking ever is. */
  lemma SelectedAreBusiness(site: Site, rs: seq<Request>)
    ensures forall r :: r in SelectBusinessRequests(site, rs) ==>
              r in rs && r.purpose != UnrelatedTracking && r.host.Some?
              && (r.host == site.actionHost || r.host == site.pageHost
                  || (site.pageHost.Some? && site.sameDomain(r.host.value, site.pageHost.value)))
    ensures forall r :: r in rs && ClassifyBusinessRequest(site, r) == Primary ==> r in SelectBusinessRequests(site, rs)
    ensures (exists r :: r in rs && ClassifyBusinessRequest(site, r) != NotBusiness) <==> SelectBusinessRequests(site, rs) != []
  {
    FilterMembers(rs, InTier(site, Primary));
    FilterMembers(rs, InTier(site, Secondary));
    if r :| r in rs && ClassifyBusinessRequest(site, r) == Primary {
      assert r in Filter(rs, InTier(site, Primary));
    }
    if r :| r in rs && ClassifyBusinessRequest(site, r) == Secondary {
      assert r in Filter(rs, InTier(site, Secondary));
    }
    if SelectBusinessRequests(site, rs) != [] {
      assert SelectBusinessRequests(site, rs)[0] in SelectBusinessRequests(site, rs);
    }
  }

  /** Sent to the form's action or the page's own site, as a request the page itself makes, and not tracking. */
  predicate OwnRequest(site: Site, r: Request) {
    && r.host.Some? && r.purpose != UnrelatedTracking
    && (r.resourceType == "xhr" || r.resourceType == "fetch" || r.resourceType == "document" || r.resourceType == "other")
    && (r.host == site.actionHost || r.host == site.pageHost
        || (site.pageHost.Some? && site.sameDomain(r.host.value, site.pageHost.value)))
  }

  predicate StateChanging(site: Site, r: Request) {
    var m := site.upper(r.httpMethod);
    m == "POST" || m == "PUT" || m == "PATCH" || r.resourceType == "document"
  }

  predicate KnownRead(r: Request) {
    r.purpose == FormConfiguration || r.purpose == LocationLookup || r.purpose == LocationResults
    || r.purpose == DealerLookup || r.purpose == DealerResults || r.purpose == EmailValidation
  }

  /** The site's own state-changing requests are selected; when there is none, its own requests that serve no other known
      purpose. */
  lemma SelectedExactly(site: Site, rs: seq<Request>, r: Request)
    ensures r in SelectBusinessRequests(site, rs) <==>
              && r in rs && OwnRequest(site, r)
              && if exists p :: p in rs && OwnRequest(site, p) && StateChanging(site, p) then StateChanging(site, r)
                 else !KnownRead(r)
  {
    FilterMembers(rs, InTier(site, Primary));
    FilterMembers(rs, InTier(site, Secondary));
    if p :| p in rs && OwnRequest(site, p) && StateChanging(site, p) {
      assert p in Filter(rs, InTier(site, Primary));
    } else if Filter(rs, InTier(site, Primary)) != [] {
      var p := Filter(rs, InTier(site, Primary))[0];
      assert p in Filter(rs, InTier(site, Primary)) && StateChanging(site, p);
    }
  }

  function FirstRejected(rs: seq<Request>): Option<Request> {
    if rs == [] then None
    else if rs[0].status.Some? && rs[0].status.value >= 400 then Some(rs[0])
    else FirstRejected(rs[1..])
  }

  /** The first rejecting answer outranks an earlier accepted one; without one the first request decides. */
  function Decisive(rs: seq<Request>): Option<Request> {
    if rs == [] then None else if FirstRejected(rs).Some? then FirstRejected(rs) else Some(rs[0])
  }

  predicate Rejects(r: Request) {
    r.status.Some? && r.status.value >= 400
  }

  /** The decisive request is the first that was rejected, or without one the first. */
  lemma {:induction false} DecisiveExactly(rs: seq<Request>)
    ensures forall i :: 0 <= i < |rs| && Rejects(rs[i]) && (forall j :: 0 <= j < i ==> !Rejects(rs[j])) ==>
              Decisive(rs) == Some(rs[i])
    ensures (forall r :: r in rs ==> !Rejects(r)) ==> Decisive(rs) == if rs == [] then None else Some(rs[0])
  {
    if rs != [] {
      FirstRejectedAt(rs);
    }
  }

  lemma {:induction false} FirstRejectedAt(rs: seq<Request>)
    ensures forall i :: 0 <= i < |rs| && Rejects(rs[i]) && (forall j :: 0 <= j < i ==> !Rejects(rs[j])) ==>
              FirstRejected(rs) == Some(rs[i])
    ensures (forall r :: r in rs ==> !Rejects(r)) ==> FirstRejected(rs).None?
  {
    FirstRejectedHolds(rs);
    if rs != [] {
      FirstRejectedAt(rs[1..]);
      forall i | 0 <= i < |rs| && Rejects(rs[i]) && (forall j :: 0 <= j < i ==> !Rejects(rs[j]))
        ensures FirstRejected(rs) == Some(rs[i])
      {
        if i > 0 {
          assert rs[1..][i - 1] == rs[i];
          assert forall j :: 0 <= j < i - 1 ==> rs[1..][j] == rs[j + 1];
        }
      }
    }
  }

  /** A request that is still pending, or was answered below 400, may have created the lead. */
  predicate MayHaveLanded(r: Request) {
    r.outcome == Pending || (r.status.Some? && r.status.value < 400)
  }

  /** The retry guard over the requests the observer saw: it looks at the decisive one only. */
  predicate GuardHolds(rs: seq<Request>) {
    Decisive(rs).Some? && MayHaveLanded(Decisive(rs).value)
  }

  predicate SomeRejected(rs: seq<Request>) {
    exists r :: r in rs && r.status.Some? && r.status.value >= 400
  }

  lemma {:induction false} FirstRejectedHolds(rs: seq<Request>)
    ensures FirstRejected(rs).Some? ==>
              var r := FirstRejected(rs).value; r in rs && r.status.Some? && r.status.value >= 400
    ensures FirstRejected(rs).None? ==> forall r :: r in rs && r.status.Some? ==> r.status.value < 400
  {
    if rs != [] {
      FirstRejectedHolds(rs[1..]);
    }
  }

  /** What the runtime can hold: a request has an answer exactly when it completed. */
  ghost predicate Answered(rs: seq<Request>) {
    forall r :: r in rs ==> (r.outcome == Completed <==> r.status.Some?)
  }

  /** No request was seen, one was rejected, or the first failed without an answer. */
  predicate GuardMisses(rs: seq<Request>) {
    rs == [] || SomeRejected(rs) || rs[0].outcome == Failed
  }

  /** The guard lets an attempt pass exactly then, whatever else is among the requests. */
  lemma GuardMissesExactly(rs: seq<Request>)
    requires Answered(rs)
    ensures !GuardHolds(rs) <==> GuardMisses(rs)
  {
    FirstRejectedHolds(rs);
    if rs != [] {
      assert rs[0] in rs;
    }
  }

  // ---------------------------------------------------------------- the same requests, read later

  /** A pending request may have been answered or have failed; its answer may also have changed what it is taken for. */
  predicate Settled(before: Request, after: Request) {
    && after.httpMethod == before.httpMethod && after.host == before.host && after.resourceType == before.resourceType
    && (before.outcome != Pending ==> after.outcome == before.outcome && after.status == before.status)
  }

  /** The list of captured requests is live: its entries settle and new ones are appended. */
  predicate Later(before: seq<Request>, after: seq<Request>) {
    |before| <= |after| && forall i :: 0 <= i < |before| ==> Settled(before[i], after[i])
  }

  /** `r` started after the first reading, or is taken for something else since. */
  ghost predicate Unseen(before: seq<Request>, after: seq<Request>, r: Request) {
    exists i :: 0 <= i < |after| && after[i] == r && (i >= |before| || before[i].purpose != r.purpose)
  }

  /** When no business request was there at first, every one found later is unseen. */
  lemma LaterBusinessIsUnseen(site: Site, before: seq<Request>, after: seq<Request>, r: Request)
    requires Later(before, after) && SelectBusinessRequests(site, before) == []
    requires r in SelectBusinessRequests(site, after)
    ensures Unseen(before, after, r)
  {
    SelectedAreBusiness(site, before);
    SelectedInTier(site, after, r);
    var i :| 0 <= i < |after| && after[i] == r;
    if i < |before| {
      assert before[i] in before && Settled(before[i], after[i]);
      assert ClassifyBusinessRequest(site, before[i]) == NotBusiness;
    }
  }

  lemma SelectedInTier(site: Site, rs: seq<Request>, r: Request)
    requires r in SelectBusinessRequests(site, rs)
    ensures r in rs && ClassifyBusinessRequest(site, r) != NotBusiness
  {
    FilterMembers(rs, InTier(site, Primary));
    FilterMembers(rs, InTier(site, Secondary));
  }
}
