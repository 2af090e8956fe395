/** Request accounting of the low-memory browser mode while pages open, close, come back and are detached. */
module ResourceRouting {
  import opened Wrappers
  import opened Tallies

  datatype Role = Original | Popup

  /** One registration of a page. */
  datatype PageState = PageState(
    page: nat, pageId: nat, role: Role, duplicateRegistrationPrevented: bool, closed: bool, tallies: seq<Entry>)

  /** A request that reached the route handler, or a measured response to an allowed one. */
  datatype Happening = Routed(resourceType: ResourceType) | Measured(resourceType: ResourceType, bytes: nat)

  predicate Blocked(t: ResourceType) {
    t == Image || t == Media || t == Font
  }

  function Effect(h: Happening): Tally {
    match h
    case Routed(t) => if Blocked(t) then Tally(0, 0, 1) else Tally(1, 0, 0)
    case Measured(t, bytes) => if Blocked(t) then ZERO else Tally(0, bytes, 0)
  }

  function Share(h: Happening, t: ResourceType, k: Kind): nat {
    if h.resourceType == t then Part(Effect(h), k) else 0
  }

  /** What the run's history amounts to for one resource type. */
  function Tallied(history: seq<Happening>, t: ResourceType, k: Kind): nat {
    if history == [] then 0 else Tallied(history[..|history| - 1], t, k) + Share(history[|history| - 1], t, k)
  }

  lemma TalliedSnoc(history: seq<Happening>, h: Happening, t: ResourceType, k: Kind)
    ensures Tallied(history + [h], t, k) == Tallied(history, t, k) + Share(h, t, k)
  {
    assert (history + [h])[..|history|] == history;
  }

  function PagesCount(pages: seq<PageState>, t: ResourceType, k: Kind): nat {
    if pages == [] then 0 else Count(pages[0].tallies, t, k) + PagesCount(pages[1..], t, k)
  }

  lemma {:induction false} PagesConcat(x: seq<PageState>, y: seq<PageState>, t: ResourceType, k: Kind)
    ensures PagesCount(x + y, t, k) == PagesCount(x, t, k) + PagesCount(y, t, k)
  {
    if x == [] {
      assert x + y == y;
    } else {
      PagesConcat(x[1..], y, t, k);
      assert (x + y)[1..] == x[1..] + y;
    }
  }

  lemma PagesSnoc(x: seq<PageState>, p: PageState, t: ResourceType, k: Kind)
    ensures PagesCount(x + [p], t, k) == PagesCount(x, t, k) + Count(p.tallies, t, k)
  {
    PagesConcat(x, [p], t, k);
    assert [p][1..] == [];
  }

  /** Taking one page out leaves the others' counts. */
  lemma PagesRemove(x: seq<PageState>, i: nat, t: ResourceType, k: Kind)
    requires i < |x|
    ensures PagesCount(x, t, k) == PagesCount(x[..i] + x[i + 1..], t, k) + Count(x[i].tallies, t, k)
  {
    assert x == (x[..i] + [x[i]]) + x[i + 1..];
    PagesConcat(x[..i] + [x[i]], x[i + 1..], t, k);
    PagesSnoc(x[..i], x[i], t, k);
    PagesConcat(x[..i], x[i + 1..], t, k);
  }

  lemma PagesUpdate(x: seq<PageState>, i: nat, p: PageState, t: ResourceType, k: Kind)
    requires i < |x|
    ensures PagesCount(x[i := p], t, k) == PagesCount(x, t, k) - Count(x[i].tallies, t, k) + Count(p.tallies, t, k)
  {
    PagesRemove(x, i, t, k);
    PagesRemove(x[i := p], i, t, k);
    assert x[i := p][..i] == x[..i] && x[i := p][i + 1..] == x[i + 1..];
  }

  /** Live, finalized and unattributed counts make up the whole history, type by type. */
  ghost predicate Accounted(live: seq<PageState>, finalized: seq<PageState>, unattributed: seq<Entry>, history: seq<Happening>) {
    forall t, k :: PagesCount(live, t, k) + PagesCount(finalized, t, k) + Count(unattributed, t, k) == Tallied(history, t, k)
  }

  lemma AccountedUpdate(live: seq<PageState>, finalized: seq<PageState>, unattributed: seq<Entry>, history: seq<Happening>,
      i: nat, p: PageState)
    requires Accounted(live, finalized, unattributed, history) && i < |live| && p.tallies == live[i].tallies
    ensures Accounted(live[i := p], finalized, unattributed, history)
  {
    forall t, k
      ensures PagesCount(live[i := p], t, k) == PagesCount(live, t, k)
    {
      PagesUpdate(live, i, p, t, k);
    }
  }

  lemma AccountedNewPage(live: seq<PageState>, finalized: seq<PageState>, unattributed: seq<Entry>, history: seq<Happening>,
      p: PageState)
    requires Accounted(live, finalized, unattributed, history) && p.tallies == []
    ensures Accounted(live + [p], finalized, unattributed, history)
  {
    forall t, k
      ensures PagesCount(live + [p], t, k) == PagesCount(live, t, k)
    {
      PagesSnoc(live, p, t, k);
    }
  }

  lemma AccountedRecord(live: seq<PageState>, finalized: seq<PageState>, unattributed: seq<Entry>, history: seq<Happening>,
      i: nat, p: PageState, h: Happening)
    requires Accounted(live, finalized, unattributed, history) && i < |live|
    requires Raised(live[i].tallies, p.tallies, h.resourceType, Effect(h))
    ensures Accounted(live[i := p], finalized, unattributed, history + [h])
  {
    forall t, k
      ensures PagesCount(live[i := p], t, k) + PagesCount(finalized, t, k) + Count(unattributed, t, k) ==
          Tallied(history + [h], t, k)
    {
      PagesUpdate(live, i, p, t, k);
      TalliedSnoc(history, h, t, k);
    }
  }

  lemma AccountedUnattributed(live: seq<PageState>, finalized: seq<PageState>, unattributed: seq<Entry>, history: seq<Happening>,
      more: seq<Entry>, h: Happening)
    requires Accounted(live, finalized, unattributed, history)
    requires Raised(unattributed, more, h.resourceType, Effect(h))
    ensures Accounted(live, finalized, more, history + [h])
  {
    forall t, k
      ensures PagesCount(live, t, k) + PagesCount(finalized, t, k) + Count(more, t, k) == Tallied(history + [h], t, k)
    {
      TalliedSnoc(history, h, t, k);
    }
  }

  lemma AccountedNothing(live: seq<PageState>, finalized: seq<PageState>, unattributed: seq<Entry>, history: seq<Happening>,
      h: Happening)
    requires Accounted(live, finalized, unattributed, history) && Effect(h) == ZERO
    ensures Accounted(live, finalized, unattributed, history + [h])
  {
    forall t, k
      ensures Tallied(history + [h], t, k) == Tallied(history, t, k)
    {
      TalliedSnoc(history, h, t, k);
    }
  }

  lemma AccountedClose(live: seq<PageState>, finalized: seq<PageState>, unattributed: seq<Entry>, history: seq<Happening>,
      i: nat, p: PageState)
    requires Accounted(live, finalized, unattributed, history) && i < |live| && p.tallies == live[i].tallies
    ensures Accounted(live[..i] + live[i + 1..], finalized + [p], unattributed, history)
  {
    forall t, k
      ensures PagesCount(live[..i] + live[i + 1..], t, k) + PagesCount(finalized + [p], t, k) + Count(unattributed, t, k) ==
          Tallied(history, t, k)
    {
      PagesSnoc(finalized, p, t, k);
      PagesRemove(live, i, t, k);
    }
  }

  lemma AccountedDetach(live: seq<PageState>, finalized: seq<PageState>, unattributed: seq<Entry>, history: seq<Happening>)
    requires Accounted(live, finalized, unattributed, history)
    ensures Accounted([], finalized + live, unattributed, history)
  {
    forall t, k
      ensures PagesCount(finalized + live, t, k) == PagesCount(finalized, t, k) + PagesCount(live, t, k)
    {
      PagesConcat(finalized, live, t, k);
    }
  }

  predicate OnePageEach(live: seq<PageState>) {
    forall i, j :: 0 <= i < j < |live| ==> live[i].page != live[j].page
  }

  class Routing {
    var pageCounter: nat
    var live: seq<PageState>
    var finalized: seq<PageState>
    var unattributed: seq<Entry>
    ghost var history: seq<Happening>

    ghost predicate Valid()
      reads this
    {
      OnePageEach(live) && Accounted(live, finalized, unattributed, history)
    }

    function IndexOf(page: nat): (i: Option<nat>)
      reads this
      ensures i.Some? ==> i.value < |live| && live[i.value].page == page
      ensures i.None? ==> forall j :: 0 <= j < |live| ==> live[j].page != page
    {
      Find(live, page)
    }

    static function Find(pages: seq<PageState>, page: nat): (i: Option<nat>)
      ensures i.Some? ==> i.value < |pages| && pages[i.value].page == page
      ensures i.None? ==> forall j :: 0 <= j < |pages| ==> pages[j].page != page
    {
      if pages == [] then None
      else if pages[|pages| - 1].page == page then Some(|pages| - 1)
      else Find(pages[..|pages| - 1], page)
    }

    constructor (page: nat)
      ensures Valid() && history == [] && |live| == 1 && live[0].page == page && finalized == []
    {
      pageCounter := 1;
      live := [PageState(page, 1, Original, false, false, [])];
      finalized, unattributed, history := [], [], [];
      new;
      AccountedNewPage([], [], [], [], live[0]);
      assert [] + live == live;
    }

    /** A page already registered only has the duplicate attempt noted. */
    method RegisterPage(page: nat, role: Role)
      requires Valid()
      modifies this
      ensures Valid() && history == old(history) && finalized == old(finalized) && unattributed == old(unattributed)
      ensures IndexOf(page).Some?
      ensures old(IndexOf(page)).None? ==> live == old(live) + [PageState(page, old(pageCounter) + 1, role, false, false, [])]
      ensures old(IndexOf(page)).Some? ==>
                var i := old(IndexOf(page)).value; live == old(live)[i := old(live)[i].(duplicateRegistrationPrevented := true)]
    {
      var i := IndexOf(page);
      if i.Some? {
        AccountedUpdate(live, finalized, unattributed, history, i.value, live[i.value].(duplicateRegistrationPrevented := true));
        live := live[i.value := live[i.value].(duplicateRegistrationPrevented := true)];
        assert live[i.value].page == page;
      } else {
        pageCounter := pageCounter + 1;
        var state := PageState(page, pageCounter, role, false, false, []);
        AccountedNewPage(live, finalized, unattributed, history, state);
        live := live + [state];
        assert live[|live| - 1].page == page;
      }
    }

    /** Records one happening in the tallies of a live page. */
    method Record(i: nat, h: Happening)
      requires Valid() && i < |live|
      modifies this
      ensures Valid() && history == old(history) + [h] && finalized == old(finalized) && unattributed == old(unattributed)
      ensures |live| == |old(live)| && live == old(live)[i := old(live)[i].(tallies := live[i].tallies)]
      ensures Raised(old(live)[i].tallies, live[i].tallies, h.resourceType, Effect(h))
    {
      var tallies := AddTo(live[i].tallies, h.resourceType, Effect(h));
      AccountedRecord(live, finalized, unattributed, history, i, live[i].(tallies := tallies), h);
      history := history + [h];
      live := live[i := live[i].(tallies := tallies)];
    }

    /** The route handler. A page not registered, or no longer, is registered late; a request without a page counts as
        unattributed. */
    method RouteRequest(resourceType: ResourceType, page: Option<nat>)
      requires Valid()
      modifies this
      ensures Valid() && history == old(history) + [Routed(resourceType)] && finalized == old(finalized)
      ensures page.Some? ==>
                && unattributed == old(unattributed) && IndexOf(page.value).Some?
                && var i := IndexOf(page.value).value;
                   var was := old(IndexOf(page.value));
                   && Raised(if was.Some? then old(live)[was.value].tallies else [], live[i].tallies, resourceType,
                       Effect(Routed(resourceType)))
                   && forall j :: 0 <= j < |old(live)| && j != i ==> j < |live| && live[j] == old(live)[j]
      ensures page.None? ==>
          live == old(live) && Raised(old(unattributed), unattributed, resourceType, Effect(Routed(resourceType)))
    {
      var h := Routed(resourceType);
      if page.Some? {
        if IndexOf(page.value).None? {
          RegisterPage(page.value, Popup);
        }
        Record(IndexOf(page.value).value, h);
      } else {
        var more := AddTo(unattributed, resourceType, Effect(h));
        AccountedUnattributed(live, finalized, unattributed, history, more, h);
        unattributed := more;
        history := history + [h];
      }
    }

    /** A response with a usable length, seen while its page is registered. */
    method OnResponse(page: nat, resourceType: ResourceType, bytes: nat)
      requires Valid() && IndexOf(page).Some?
      modifies this
      ensures Valid() && finalized == old(finalized) && unattributed == old(unattributed)
      ensures history == old(history) + [Measured(resourceType, bytes)]
      ensures IndexOf(page) == old(IndexOf(page)) && |live| == |old(live)|
      ensures var i := old(IndexOf(page)).value;
              && Raised(old(live)[i].tallies, live[i].tallies, resourceType, Effect(Measured(resourceType, bytes)))
              && forall j :: 0 <= j < |live| && j != i ==> live[j] == old(live)[j]
    {
      var h := Measured(resourceType, bytes);
      if Blocked(resourceType) {
        AccountedNothing(live, finalized, unattributed, history, h);
        history := history + [h];
        return;
      }
      Record(IndexOf(page).value, h);
    }

    /** A closing page's state moves to the finalized list as it is. */
    method OnClose(page: nat)
      requires Valid() && IndexOf(page).Some?
      modifies this
      ensures Valid() && history == old(history) && unattributed == old(unattributed)
      ensures IndexOf(page).None? && |live| == |old(live)| - 1
      ensures finalized == old(finalized) + [old(live)[old(IndexOf(page)).value].(closed := true)]
    {
      var i := IndexOf(page).value;
      AccountedClose(live, finalized, unattributed, history, i, live[i].(closed := true));
      finalized := finalized + [live[i].(closed := true)];
      live := live[..i] + live[i + 1..];
    }

    /** Pages still open when routing ends are finalized without being marked closed. */
    method Detach()
      requires Valid()
      modifies this
      ensures Valid() && history == old(history) && unattributed == old(unattributed)
      ensures live == [] && finalized == old(finalized) + old(live)
    {
      AccountedDetach(live, finalized, unattributed, history);
      finalized := finalized + live;
      live := [];
    }

    /** The run totals, one entry a type, equal the requests and bytes of the whole history; the page list holds every
        registration once. */
    method Diagnostics() returns (byResourceType: seq<Entry>, byPage: seq<PageState>)
      requires Valid()
      ensures byPage == finalized + live
      ensures OneEntryAType(byResourceType)
      ensures forall t, k :: Count(byResourceType, t, k) == Tallied(history, t, k)
    {
      byPage := finalized + live;
      byResourceType := MergePages([], live);
      byResourceType := MergePages(byResourceType, finalized);
      byResourceType := Merge(byResourceType, unattributed);
    }

    static method MergePages(into: seq<Entry>, pages: seq<PageState>) returns (r: seq<Entry>)
      ensures forall t, k :: Count(r, t, k) == Count(into, t, k) + PagesCount(pages, t, k)
      ensures OneEntryAType(into) ==> OneEntryAType(r)
    {
      r := into;
      for i := 0 to |pages|
        invariant forall t, k :: Count(r, t, k) + PagesCount(pages[i..], t, k) == Count(into, t, k) + PagesCount(pages, t, k)
        invariant OneEntryAType(into) ==> OneEntryAType(r)
      {
        assert pages[i..][0] == pages[i] && pages[i..][1..] == pages[i + 1..];
        r := Merge(r, pages[i].tallies);
      }
    }
  }

  // ---------------------------------------------------------------- what the totals mean

  function RoutedOf(history: seq<Happening>, t: ResourceType): nat {
    if history == [] then 0
    else RoutedOf(history[..|history| - 1], t) + if history[|history| - 1] == Routed(t) then 1 else 0
  }

  /** The bytes measured for the type. */
  function MeasuredOf(history: seq<Happening>, t: ResourceType): nat {
    if history == [] then 0
    else
      var last := history[|history| - 1];
      MeasuredOf(history[..|history| - 1], t) + if last.Measured? && last.resourceType == t then last.bytes else 0
  }

  /** Images, media and fonts are all blocked, everything else is all allowed: the tallied requests of a type are the requests
      routed, and its allowed bytes are all the bytes measured for it. */
  lemma {:induction false} TalliedCountsRequests(history: seq<Happening>, t: ResourceType)
    ensures var blocked := t == Image || t == Media || t == Font;
            && Tallied(history, t, BlockedRequests) == (if blocked then RoutedOf(history, t) else 0)
            && Tallied(history, t, Allowed) == (if blocked then 0 else RoutedOf(history, t))
            && Tallied(history, t, AllowedBytes) == (if blocked then 0 else MeasuredOf(history, t))
  {
    if history != [] {
      TalliedCountsRequests(history[..|history| - 1], t);
    }
  }

  function PagesEstimate(pages: seq<PageState>, t: ResourceType): nat {
    if pages == [] then 0
    else BlockedBytesEstimated(t, Count(pages[0].tallies, t, BlockedRequests)) + PagesEstimate(pages[1..], t)
  }

  lemma {:induction false} EstimateOfPages(pages: seq<PageState>, t: ResourceType)
    ensures PagesEstimate(pages, t) == BlockedBytesEstimated(t, PagesCount(pages, t, BlockedRequests))
  {
    if pages != [] {
      EstimateOfPages(pages[1..], t);
    }
  }

  /** The run-level estimate of bytes never downloaded is the sum of the page-level ones and the unattributed one. */
  lemma EstimateIsSum(live: seq<PageState>, finalized: seq<PageState>, unattributed: seq<Entry>, history: seq<Happening>,
      t: ResourceType)
    requires Accounted(live, finalized, unattributed, history)
    ensures BlockedBytesEstimated(t, Tallied(history, t, BlockedRequests)) ==
              PagesEstimate(live, t) + PagesEstimate(finalized, t)
                  + BlockedBytesEstimated(t, Count(unattributed, t, BlockedRequests))
  {
    EstimateOfPages(live, t);
    EstimateOfPages(finalized, t);
    BlockedRequestsSplit(live, finalized, unattributed, history, t);
  }

  lemma BlockedRequestsSplit(live: seq<PageState>, finalized: seq<PageState>, unattributed: seq<Entry>, history: seq<Happening>,
      t: ResourceType)
    requires Accounted(live, finalized, unattributed, history)
    ensures Tallied(history, t, BlockedRequests) ==
              PagesCount(live, t, BlockedRequests) + PagesCount(finalized, t, BlockedRequests)
                  + Count(unattributed, t, BlockedRequests)
  {}
}
