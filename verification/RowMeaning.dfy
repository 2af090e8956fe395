/** What a reporting row says about its event, and in which order the rows of one window stand. */
module RowMeaning {
  import opened Wrappers
  import opened Order
  import opened UrlRelations
  import opened Evidence
  import opened ClickResolution
  import opened ClickRefinement
  import opened ClickSignals
  import opened ClickRows
  import opened Attribution
  import opened Journey
  import opened Report

  // ---------------------------------------------------------------- roles

  /** The class of the event the row names, read alone. */
  function ClassOf(env: Env, targets: seq<string>, id: EventId): Classification {
    EngineItem(env, targets, AsCapture(id)).classification
  }

  /** In a page's window a page change, real or virtual, is a confirmed result; everything else is a raw capture, unresolved. */
  ghost predicate PageRowTold(env: Env, targets: seq<string>, r: Row) {
    && r.recordType == AnalyticsEventRecord && r.eventId.Some? && r.tagStatus.None?
    && var kind := ClassOf(env, targets, r.eventId.value);
       if kind == PhysicalPageChange || kind == VirtualPageChange
       then r.role == AssociatedResult && r.correlation == Confirmed
       else r.role == RawCaptureInWindow && r.correlation == NotResolved
  }

  /** Below the click's own row another click is a candidate, confirmed when the click is captured; a change of page, form or
      configurator is a confirmed result; everything else is a raw capture, unresolved. */
  ghost predicate ClickRowTold(env: Env, targets: seq<string>, captured: bool, r: Row) {
    && r.recordType == AnalyticsEventRecord && r.eventId.Some? && r.tagStatus.None?
    && match ClassOf(env, targets, r.eventId.value)
       case ClickEvent => r.role == ClickCandidate && r.correlation == if captured then Confirmed else NotResolved
       case PhysicalPageChange => r.role == AssociatedResult && r.correlation == Confirmed
       case VirtualPageChange => r.role == AssociatedResult && r.correlation == Confirmed
       case FormOrConfiguratorState => r.role == AssociatedResult && r.correlation == Confirmed
       case OtherMeaningfulEvent => r.role == RawCaptureInWindow && r.correlation == NotResolved
       case CorrelationUnresolved => r.role == RawCaptureInWindow && r.correlation == NotResolved
  }

  lemma EntryClass(env: Env, a: Action, e: Entry)
    requires e in ReportingEntries(env, a)
    ensures e.item.classification == ClassOf(env, a.targets, e.id)
  {
    FirstOccurrencesHold(BuildEntries(env, a, Window(a)), IdOf());
    EntriesDerived(env, a, Window(a));
    EventRead(env, a.targets, e.id);
  }

  lemma PageRowsTold(env: Env, le: EntryOrder, w: PageWindow, stepIndex: int)
    ensures forall r :: r in RowsForEvidenceWindow(env, le, w, stepIndex) ==>
              PageRowTold(PageEnv(env), w.targets, r) && r.stepIndex == stepIndex
  {
    var entries := ReportingEntries(PageEnv(env), WindowAction(w));
    var sorted := StableSort(entries, le);
    SameMembers(sorted, entries);
    forall r | r in RowsForEvidenceWindow(env, le, w, stepIndex)
      ensures PageRowTold(PageEnv(env), w.targets, r) == true  // the equation keeps the definition folded
      ensures r.stepIndex == stepIndex
    {
      var i :| 0 <= i < |sorted| && WindowEventRows(sorted, stepIndex)[i] == r;
      assert sorted[i] in entries;
      PageEntryTold(PageEnv(env), WindowAction(w), sorted[i], stepIndex);
    }
  }

  lemma PageEntryTold(env: Env, a: Action, e: Entry, stepIndex: int)
    requires e in ReportingEntries(env, a)
    ensures PageRowTold(env, a.targets, WindowRow(e, stepIndex))
  {
    EntryClass(env, a, e);
  }

  /** So in every page's window of a report: the start page is compared with its own targets, a later page with its URL, and no
      element's text can match. */
  lemma ReportedPageRowsTold(env: Env, le: EntryOrder, r: Inputs, m: nat, stepIndex: int)
    requires m < |r.markers|
    ensures var targets := if m == 0 then r.startTargets else [r.markers[m].url];
            forall row :: row in RowsForEvidenceWindow(env, le, WindowOf(env, r, m), stepIndex) ==>
              PageRowTold(env.(labels := []), targets, row)
  {
    PageRowsTold(env, le, WindowOf(env, r, m), stepIndex);
  }

  lemma {:induction false} EventRowsFrom(es: seq<Entry>, stepIndex: int, role: Role, correlation: Correlation)
    ensures var rows := EventRows(es, stepIndex, role, correlation);
            |rows| == |es| && forall i :: 0 <= i < |es| ==> rows[i] == EventRow(es[i], stepIndex, role, correlation)
  {
    if es != [] {
      EventRowsFrom(es[..|es| - 1], stepIndex, role, correlation);
    }
  }

  /** Rows of one group, their entries drawn from the window. */
  lemma GroupTold(env: Env, a: Action, le: EntryOrder, group: seq<Entry>, stepIndex: int, role: Role, correlation: Correlation,
      captured: bool)
    requires forall e :: e in group ==> e in ReportingEntries(env, a)
    requires forall e :: e in group ==> ClickRowTold(env, a.targets, captured, EventRow(e, stepIndex, role, correlation))
    ensures forall r :: r in EventRows(StableSort(group, le), stepIndex, role, correlation) ==>
              ClickRowTold(env, a.targets, captured, r)
  {
    var sorted := StableSort(group, le);
    SameMembers(sorted, group);
    EventRowsFrom(sorted, stepIndex, role, correlation);
    forall r | r in EventRows(sorted, stepIndex, role, correlation)
      ensures ClickRowTold(env, a.targets, captured, r)
    {
      var i :| 0 <= i < |sorted| && EventRow(sorted[i], stepIndex, role, correlation) == r;
      assert sorted[i] in group;
    }
  }

  /** The click records but the primary one. */
  function OtherClicks(env: Env, a: Action): seq<Entry> {
    PrimaryInRange(env, a);
    Removed(Filter(ReportingEntries(env, a), IsClickEntry()), ReportingPrimary(env, a).primary)
  }

  function CandidateRows(env: Env, le: EntryOrder, a: Action, stepIndex: int): seq<Row> {
    EventRows(StableSort(OtherClicks(env, a), le), stepIndex, ClickCandidate,
              if ReportingPrimary(env, a).status == Captured then Confirmed else NotResolved)
  }

  function ResultRows(env: Env, le: EntryOrder, a: Action, stepIndex: int): seq<Row> {
    EventRows(StableSort(Filter(ReportingEntries(env, a), IsAssociated()), le), stepIndex, AssociatedResult, Confirmed)
  }

  function CaptureRows(env: Env, le: EntryOrder, a: Action, stepIndex: int): seq<Row> {
    EventRows(StableSort(Filter(ReportingEntries(env, a), IsOther()), le), stepIndex, RawCaptureInWindow, NotResolved)
  }

  lemma BelowHead<T>(head: T, x: seq<T>, y: seq<T>, z: seq<T>)
    ensures ([head] + x + y + z)[1..] == x + y + z
  {}

  lemma ClickParts(env: Env, le: EntryOrder, click: CtaClick)
    requires click.action.Some?
    ensures var rows, a := RowsForCtaClick(env, le, click), click.action.value;
            && rows[1..] == CandidateRows(env, le, a, click.stepIndex) + ResultRows(env, le, a, click.stepIndex)
                + CaptureRows(env, le, a, click.stepIndex)
            && rows[0].tagStatus == Some(ReportingPrimary(env, a).status)
  {
    var rows, a := RowsForCtaClick(env, le, click), click.action.value;
    BelowHead(rows[0], CandidateRows(env, le, a, click.stepIndex), ResultRows(env, le, a, click.stepIndex),
              CaptureRows(env, le, a, click.stepIndex));
  }

  lemma OtherClicksAre(env: Env, a: Action)
    ensures forall e :: e in OtherClicks(env, a) ==> e in ReportingEntries(env, a) && e.item.classification == ClickEvent
  {
    PrimaryInRange(env, a);
    FilterMembers(ReportingEntries(env, a), IsClickEntry());
    RemovedMembers(Filter(ReportingEntries(env, a), IsClickEntry()), ReportingPrimary(env, a).primary);
  }

  lemma RemovedMembers(es: seq<Entry>, primary: Option<nat>)
    requires primary.Some? ==> primary.value < |es|
    ensures forall e :: e in Removed(es, primary) ==> e in es
  {}

  lemma CandidatesTold(env: Env, le: EntryOrder, a: Action, stepIndex: int)
    ensures forall r :: r in CandidateRows(env, le, a, stepIndex) ==>
              ClickRowTold(env, a.targets, ReportingPrimary(env, a).status == Captured, r)
  {
    OtherClicksAre(env, a);
    var captured := ReportingPrimary(env, a).status == Captured;
    var correlation := if captured then Confirmed else NotResolved;
    forall e | e in OtherClicks(env, a)
      ensures ClickRowTold(env, a.targets, captured, EventRow(e, stepIndex, ClickCandidate, correlation)) == true
    {
      EntryClass(env, a, e);
    }
    GroupTold(env, a, le, OtherClicks(env, a), stepIndex, ClickCandidate, correlation, captured);
  }

  lemma ResultTold(env: Env, a: Action, e: Entry, stepIndex: int, captured: bool)
    requires e in ReportingEntries(env, a) && IsAssociated()(e)
    ensures ClickRowTold(env, a.targets, captured, EventRow(e, stepIndex, AssociatedResult, Confirmed))
  {
    EntryClass(env, a, e);
  }

  lemma ResultsTold(env: Env, le: EntryOrder, a: Action, stepIndex: int, captured: bool)
    ensures forall r :: r in ResultRows(env, le, a, stepIndex) ==> ClickRowTold(env, a.targets, captured, r)
  {
    var group := Filter(ReportingEntries(env, a), IsAssociated());
    FilterMembers(ReportingEntries(env, a), IsAssociated());
    forall e | e in group
      ensures ClickRowTold(env, a.targets, captured, EventRow(e, stepIndex, AssociatedResult, Confirmed)) == true
    {
      ResultTold(env, a, e, stepIndex, captured);
    }
    GroupTold(env, a, le, group, stepIndex, AssociatedResult, Confirmed, captured);
  }

  lemma RawTold(env: Env, a: Action, e: Entry, stepIndex: int, captured: bool)
    requires e in ReportingEntries(env, a) && IsOther()(e)
    ensures ClickRowTold(env, a.targets, captured, EventRow(e, stepIndex, RawCaptureInWindow, NotResolved))
  {
    EntryClass(env, a, e);
  }

  lemma CapturesTold(env: Env, le: EntryOrder, a: Action, stepIndex: int, captured: bool)
    ensures forall r :: r in CaptureRows(env, le, a, stepIndex) ==> ClickRowTold(env, a.targets, captured, r)
  {
    var group := Filter(ReportingEntries(env, a), IsOther());
    FilterMembers(ReportingEntries(env, a), IsOther());
    forall e | e in group
      ensures ClickRowTold(env, a.targets, captured, EventRow(e, stepIndex, RawCaptureInWindow, NotResolved)) == true
    {
      RawTold(env, a, e, stepIndex, captured);
    }
    GroupTold(env, a, le, group, stepIndex, RawCaptureInWindow, NotResolved, captured);
  }

  /** All rows of a click but its own. */
  lemma ClickRowsTold(env: Env, le: EntryOrder, click: CtaClick)
    requires click.action.Some?
    ensures var rows, a := RowsForCtaClick(env, le, click), click.action.value;
            forall r :: r in rows[1..] ==> ClickRowTold(env, a.targets, rows[0].tagStatus == Some(Captured), r)
  {
    var a := click.action.value;
    var captured := ReportingPrimary(env, a).status == Captured;
    ClickParts(env, le, click);
    CandidatesTold(env, le, a, click.stepIndex);
    ResultsTold(env, le, a, click.stepIndex, captured);
    CapturesTold(env, le, a, click.stepIndex, captured);
  }

  /** The click's own row: confirmed when captured, no tag observed when there was none, and otherwise not resolved. */
  lemma OwnRowTold(env: Env, le: EntryOrder, click: CtaClick)
    requires click.action.Some?
    ensures var row := RowsForCtaClick(env, le, click)[0];
            && row.role == PrimaryClick && row.tagStatus.Some?
            && (row.correlation == Confirmed <==> row.tagStatus.value == Captured)
            && (row.correlation == WebsiteNoObservedTag <==> row.tagStatus.value == NoObservedClickTag)
            && row.correlation != NotApplicable
  {}

  // ---------------------------------------------------------------- order

  /** The rows name, one by one, events of the list that stand in its order. */
  ghost predicate NamedInOrder(rows: seq<Row>, from: seq<Entry>, le: EntryOrder) {
    exists es: seq<Entry> ::
      && |es| == |rows| && SortedBy(es, le)
      && (forall i :: 0 <= i < |rows| ==> es[i] in from && rows[i].eventId == Some(es[i].id))
  }

  lemma SortedGroup(group: seq<Entry>, from: seq<Entry>, le: EntryOrder, rows: seq<Row>)
    requires TotalPreorder(le) && forall e :: e in group ==> e in from
    requires |rows| == |StableSort(group, le)|
    requires forall i :: 0 <= i < |rows| ==> rows[i].eventId == Some(StableSort(group, le)[i].id)
    ensures NamedInOrder(rows, from, le)
  {
    var es := StableSort(group, le);
    StableSortSorted(group, le);
    SameMembers(es, group);
    forall i | 0 <= i < |rows|
      ensures es[i] in from && rows[i].eventId == Some(es[i].id)
    {
      assert es[i] in es;
    }
  }

  /** The rows of a page's window stand in the sort order, whatever order that is. */
  lemma PageRowsInOrder(env: Env, le: EntryOrder, w: PageWindow, stepIndex: int)
    requires TotalPreorder(le)
    ensures NamedInOrder(RowsForEvidenceWindow(env, le, w, stepIndex), ReportingEntries(PageEnv(env), WindowAction(w)), le)
  {
    var entries := ReportingEntries(PageEnv(env), WindowAction(w));
    SortedGroup(entries, entries, le, RowsForEvidenceWindow(env, le, w, stepIndex));
  }

  lemma GroupInOrder(group: seq<Entry>, from: seq<Entry>, le: EntryOrder, stepIndex: int, role: Role, correlation: Correlation)
    requires TotalPreorder(le) && forall e :: e in group ==> e in from
    ensures NamedInOrder(EventRows(StableSort(group, le), stepIndex, role, correlation), from, le)
  {
    EventRowsFrom(StableSort(group, le), stepIndex, role, correlation);
    SortedGroup(group, from, le, EventRows(StableSort(group, le), stepIndex, role, correlation));
  }

  /** A group of rows of one role that stands in the sort order. */
  ghost predicate GroupOf(rows: seq<Row>, role: Role, env: Env, a: Action, le: EntryOrder) {
    NamedInOrder(rows, ReportingEntries(env, a), le) && forall r :: r in rows ==> r.role == role
  }

  lemma CandidateGroup(env: Env, le: EntryOrder, a: Action, stepIndex: int)
    requires TotalPreorder(le)
    ensures GroupOf(CandidateRows(env, le, a, stepIndex), ClickCandidate, env, a, le)
  {
    OtherClicksAre(env, a);
    var correlation := if ReportingPrimary(env, a).status == Captured then Confirmed else NotResolved;
    GroupInOrder(OtherClicks(env, a), ReportingEntries(env, a), le, stepIndex, ClickCandidate, correlation);
    EventRowsAtStep(StableSort(OtherClicks(env, a), le), stepIndex, ClickCandidate, correlation);
  }

  lemma LowerGroups(env: Env, le: EntryOrder, a: Action, stepIndex: int)
    requires TotalPreorder(le)
    ensures GroupOf(ResultRows(env, le, a, stepIndex), AssociatedResult, env, a, le)
    ensures GroupOf(CaptureRows(env, le, a, stepIndex), RawCaptureInWindow, env, a, le)
  {
    var entries := ReportingEntries(env, a);
    FilterMembers(entries, IsAssociated());
    FilterMembers(entries, IsOther());
    GroupInOrder(Filter(entries, IsAssociated()), entries, le, stepIndex, AssociatedResult, Confirmed);
    GroupInOrder(Filter(entries, IsOther()), entries, le, stepIndex, RawCaptureInWindow, NotResolved);
    EventRowsAtStep(StableSort(Filter(entries, IsAssociated()), le), stepIndex, AssociatedResult, Confirmed);
    EventRowsAtStep(StableSort(Filter(entries, IsOther()), le), stepIndex, RawCaptureInWindow, NotResolved);
  }

  /** Below the click's own row come its candidates, then its results, then the raw captures, each group in the sort order. */
  lemma ClickGroupsInOrder(env: Env, le: EntryOrder, click: CtaClick)
      returns (candidates: seq<Row>, results: seq<Row>, captures: seq<Row>)
    requires click.action.Some? && TotalPreorder(le)
    ensures RowsForCtaClick(env, le, click)[1..] == candidates + results + captures
    ensures GroupOf(candidates, ClickCandidate, env, click.action.value, le)
    ensures GroupOf(results, AssociatedResult, env, click.action.value, le)
    ensures GroupOf(captures, RawCaptureInWindow, env, click.action.value, le)
  {
    var a := click.action.value;
    ClickParts(env, le, click);
    CandidateGroup(env, le, a, click.stepIndex);
    LowerGroups(env, le, a, click.stepIndex);
    candidates, results := CandidateRows(env, le, a, click.stepIndex), ResultRows(env, le, a, click.stepIndex);
    captures := CaptureRows(env, le, a, click.stepIndex);
  }

  // ---------------------------------------------------------------- what is matched against the pages

  /** The first record that tells of virtual state at all names this virtual page. */
  ghost predicate VirtualPageIs(x: Capture, u: string) {
    VirtualPageIn(RecordsOf(x), u)
  }

  /** A push is matched by the page it was made on; a request by the page, the destination and the virtual page it names. */
  lemma MatchedUrls(env: Env, x: Capture, u: string)
    ensures u in CandidateUrls(env, x) <==>
              match x
              case Push(_, url, _) => u == url
              case Ga4(_, _, _, _, _, _, _) => FirstHeld(RecordsOf(x), ["dl"], u) || DestinationIs(x, u) || VirtualPageIs(x, u)
  {
    if x.Ga4? {
      PlaceExactly(env, x, u);
      DestinationExactly(env, x, u);
      HeldNotEmpty(RecordsOf(x), ["dl"], u);
      VirtualPageExactly(RecordsOf(x), u);
    }
  }

  lemma HeldNotEmpty(recs: seq<Rec>, keys: seq<string>, u: string)
    ensures FirstHeld(recs, keys, u) ==> u != ""
  {}

  lemma NoVirtualInOne(rec: Rec)
    ensures NoVirtualState([rec]) <==> ExtractVirtualMeta(rec).None?
  {
    VirtualMetaExactly(rec);
    VirtualNamesAre();
    assert rec in [rec];
  }

  ghost predicate VirtualPageIn(recs: seq<Rec>, u: string) {
    exists i :: 0 <= i < |recs|
      && ReadsFirst(recs[i], ["virtualpage_url", "virtualPageUrl", "virtualPagePath"], u)
      && forall h :: 0 <= h < i ==> NoVirtualState([recs[h]])
  }

  function VirtualOf(recs: seq<Rec>): Option<VirtualMeta> {
    FirstOf(recs, (rec: Rec) => ExtractVirtualMeta(rec))
  }

  lemma {:induction false} VirtualPageExactly(recs: seq<Rec>, u: string)
    ensures VirtualOf(recs).Some? && VirtualOf(recs).value.virtualPageUrl == Some(u) <==> VirtualPageIn(recs, u)
    ensures VirtualPageIn(recs, u) ==> u != ""
  {
    if recs != [] {
      NoVirtualInOne(recs[0]);
      FieldExactly(recs[0], VIRTUAL_URL_KEYS, u);
      VirtualPageExactly(recs[1..], u);
      if NoVirtualState([recs[0]]) {
        VirtualPageLater(recs, u);
      } else if VirtualPageIn(recs, u) {
        assert ReadsFirst(recs[0], VIRTUAL_URL_KEYS, u);
      }
    }
  }

  lemma VirtualPageLater(recs: seq<Rec>, u: string)
    requires recs != [] && NoVirtualState([recs[0]])
    ensures VirtualPageIn(recs, u) <==> VirtualPageIn(recs[1..], u)
  {
    if VirtualPageIn(recs, u) {
      var i :| 0 <= i < |recs| && ReadsFirst(recs[i], ["virtualpage_url", "virtualPageUrl", "virtualPagePath"], u)
          && forall h :: 0 <= h < i ==> NoVirtualState([recs[h]]);
      NoVirtualInOne(recs[0]);
      FieldExactly(recs[0], VIRTUAL_URL_KEYS, u);
      assert i > 0;
      assert recs[1..][i - 1] == recs[i];
      forall h | 0 <= h < i - 1
        ensures NoVirtualState([recs[1..][h]])
      {
        assert recs[1..][h] == recs[h + 1];
      }
    }
    if VirtualPageIn(recs[1..], u) {
      var i :| 0 <= i < |recs[1..]| && ReadsFirst(recs[1..][i], ["virtualpage_url", "virtualPageUrl", "virtualPagePath"], u)
          && forall h :: 0 <= h < i ==> NoVirtualState([recs[1..][h]]);
      assert recs[i + 1] == recs[1..][i];
      forall h | 0 <= h < i + 1
        ensures NoVirtualState([recs[h]])
      {
        if h > 0 {
          assert recs[h] == recs[1..][h - 1];
        }
      }
    }
  }
}
