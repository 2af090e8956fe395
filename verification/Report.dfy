/** A whole report from its captures: attribution, page windows, the merged journey, and which captured events are reported. */
module Report {
  import opened Wrappers
  import opened Order
  import opened Evidence
  import opened ClickResolution
  import opened LogicalEvents
  import opened ClickRows
  import opened Attribution
  import opened Journey

  /** What a run hands to the report. The first marker is the start page; `printed` prints a step number. */
  datatype Inputs = Inputs(
    taskId: string, startTargets: seq<string>, markers: seq<Marker>, clicks: seq<CtaClick>, ga4: seq<Capture>,
        pushes: seq<Capture>,
    printed: int -> string)

  function ClickSteps(clicks: seq<CtaClick>): set<int> {
    set c | c in clicks :: c.stepIndex
  }

  ghost function OwnerIn(env: Env, r: Inputs): Capture -> Option<nat> {
    OwnerOf(env, r.markers, ClickSteps(r.clicks))
  }

  function WindowFor(r: Inputs, m: nat, ga4: seq<Capture>, pushes: seq<Capture>): PageWindow
    requires m < |r.markers|
  {
    if m == 0 then PageWindow(ga4, pushes, r.startTargets, r.taskId + ":start")
    else PageWindow(ga4, pushes, [r.markers[m].url], r.taskId + ":page:" + r.printed(r.markers[m].stepIndex))
  }

  /** The window of marker `m`: the captures it owns, in capture order. */
  ghost function WindowOf(env: Env, r: Inputs, m: nat): PageWindow
    requires m < |r.markers|
  {
    WindowFor(r, m, Filter(r.ga4, OwnedBy(OwnerIn(env, r), m)), Filter(r.pushes, OwnedBy(OwnerIn(env, r), m)))
  }

  function ClickEntries(clicks: seq<CtaClick>): (es: seq<JourneyEntry>)
    ensures |es| == |clicks| && forall i :: 0 <= i < |es| ==> es[i] == ClickAt(clicks[i])
  {
    seq(|clicks|, i requires 0 <= i < |clicks| => ClickAt(clicks[i]))
  }

  ghost function PageEntries(env: Env, r: Inputs, n: nat): (es: seq<JourneyEntry>)
    requires 1 <= n <= |r.markers|
    ensures |es| == n - 1 && forall i :: 0 <= i < |es| ==> es[i] == PageAt(r.markers[i + 1].stepIndex, WindowOf(env, r, i + 1))
  {
    if n == 1 then [] else PageEntries(env, r, n - 1) + [PageAt(r.markers[n - 1].stepIndex, WindowOf(env, r, n - 1))]
  }

  ghost function ReportRows(env: Env, le: EntryOrder, r: Inputs): seq<Row>
    requires r.markers != []
  {
    JourneyRows(env, le, r.markers[0].stepIndex, WindowOf(env, r, 0), ClickEntries(r.clicks) + PageEntries(env, r, |r.markers|))
  }

  /** Attribution of both kinds of capture, then the rows of the start page, the clicks and the later pages. */
  method BuildReport(env: Env, le: EntryOrder, r: Inputs) returns (rows: seq<Row>)
    requires r.markers != []
    ensures rows == ReportRows(env, le, r)
    ensures NamesCaptured(env, r, rows)
  {
    var ga4ByMarker := AttributeEvidence(env, r.markers, ClickSteps(r.clicks), r.ga4);
    var pushesByMarker := AttributeEvidence(env, r.markers, ClickSteps(r.clicks), r.pushes);
    var pages: seq<JourneyEntry> := [];
    for m := 1 to |r.markers|
      invariant pages == PageEntries(env, r, m)
    {
      pages := pages + [PageAt(r.markers[m].stepIndex, WindowFor(r, m, ga4ByMarker[m], pushesByMarker[m]))];
    }
    rows := BuildAnalyticsReportingRows(
      env, le, r.markers[0].stepIndex, WindowFor(r, 0, ga4ByMarker[0], pushesByMarker[0]), ClickEntries(r.clicks) + pages);
    ReportNamesCaptured(env, le, r);
  }

  // ---------------------------------------------------------------- what is reported, and what is lost

  /** Every window of the report: the start page's, the clicks', the later pages'. */
  ghost function Windows(env: Env, r: Inputs): seq<JourneyEntry>
    requires r.markers != []
  {
    [PageAt(r.markers[0].stepIndex, WindowOf(env, r, 0))] + (ClickEntries(r.clicks) + PageEntries(env, r, |r.markers|))
  }

  /** The report has one row naming an event for each window that holds it, and no other row names it. */
  lemma NamedOncePerWindow(env: Env, le: EntryOrder, r: Inputs, id: EventId)
    requires r.markers != []
    ensures RowsNaming(ReportRows(env, le, r), id) == |Filter(Windows(env, r), Holding(env, id))|
  {
    JourneyNames(env, le, r.markers[0].stepIndex, WindowOf(env, r, 0), ClickEntries(r.clicks) + PageEntries(env, r, |r.markers|),
        id);
  }

  /** The windows are those of the markers and of the clicks. */
  lemma WindowsAre(env: Env, r: Inputs, w: JourneyEntry)
    requires r.markers != []
    ensures w in Windows(env, r) <==>
              (exists m: nat :: m < |r.markers| && w == PageAt(r.markers[m].stepIndex, WindowOf(env, r, m)))
              || (exists click :: click in r.clicks && w == ClickAt(click))
  {
    var n := |r.markers|;
    var clicks, pages := ClickEntries(r.clicks), PageEntries(env, r, n);
    forall m: nat | m < n
      ensures PageAt(r.markers[m].stepIndex, WindowOf(env, r, m)) in Windows(env, r)
    {
      if m > 0 { assert pages[m - 1] in pages; }
    }
    forall click | click in r.clicks
      ensures ClickAt(click) in Windows(env, r)
    {
      var i :| 0 <= i < |r.clicks| && r.clicks[i] == click;
      assert clicks[i] in clicks;
    }
  }

  /** A window holds an event exactly when one of its captures expands to it. */
  lemma HoldsExactly(env: Env, a: Action, id: EventId)
    ensures Holds(env, a, id) <==> exists x :: x in Window(a) && Yields(env, a, x, id)
    ensures Holds(env, a, id) <==> EventOf(a, id)
  {
    BuiltExactly(env, a, id);
    forall e
      ensures e in BuildEntries(env, a, Window(a)) <==> exists x :: x in Window(a) && e in EntriesOf(env, a, x)
    {
      BuiltFrom(env, a, Window(a), e);
    }
    if Holds(env, a, id) {
      var e :| e in BuildEntries(env, a, Window(a)) && e.id == id;
      var x :| x in Window(a) && e in EntriesOf(env, a, x);
      assert Yields(env, a, x, id);
    }
    if x :| x in Window(a) && Yields(env, a, x, id) {
      var e :| e in EntriesOf(env, a, x) && e.id == id;
      assert e in BuildEntries(env, a, Window(a));
    }
  }

  /** A page's window has the captures its marker owns. */
  lemma OwnedCaptures(env: Env, r: Inputs, m: nat, x: Capture)
    requires m < |r.markers|
    ensures x in Window(WindowAction(WindowOf(env, r, m))) <==> (x in r.ga4 || x in r.pushes) && OwnerIn(env, r)(x) == Some(m)
  {
    FilterMembers(r.ga4, OwnedBy(OwnerIn(env, r), m));
    FilterMembers(r.pushes, OwnedBy(OwnerIn(env, r), m));
  }

  /** A capture off the clicks' steps that yields the event in the window of the page that owns it. */
  ghost predicate PageYields(env: Env, r: Inputs, x: Capture, id: EventId)
    requires r.markers != []
  {
    && (x in r.ga4 || x in r.pushes) && x.meta.stepIndex !in ClickSteps(r.clicks)
    && Yields(PageEnv(env), WindowAction(WindowOf(env, r, OwnerIn(env, r)(x).value)), x, id)
  }

  /** A click whose own window has a capture that yields the event. */
  predicate ClickYields(env: Env, click: CtaClick, x: Capture, id: EventId) {
    click.action.Some? && x in Window(click.action.value) && Yields(ClickEnv(env, click), click.action.value, x, id)
  }

  lemma SomePageHolds(env: Env, r: Inputs, id: EventId)
    requires r.markers != []
    ensures (exists m: nat :: m < |r.markers| && Holds(PageEnv(env), WindowAction(WindowOf(env, r, m)), id))
            <==> exists x :: PageYields(env, r, x, id)
  {
    if m: nat :| m < |r.markers| && Holds(PageEnv(env), WindowAction(WindowOf(env, r, m)), id) {
      var a := WindowAction(WindowOf(env, r, m));
      HoldsExactly(PageEnv(env), a, id);
      var x :| x in Window(a) && Yields(PageEnv(env), a, x, id);
      OwnedCaptures(env, r, m, x);
      assert PageYields(env, r, x, id);
    }
    if x :| PageYields(env, r, x, id) {
      var m := OwnerIn(env, r)(x).value;
      OwnedCaptures(env, r, m, x);
      HoldsExactly(PageEnv(env), WindowAction(WindowOf(env, r, m)), id);
      assert Holds(PageEnv(env), WindowAction(WindowOf(env, r, m)), id);
    }
  }

  lemma ClickHolds(env: Env, click: CtaClick, id: EventId)
    ensures EntryHolds(env, ClickAt(click), id) <==> exists x :: ClickYields(env, click, x, id)
  {
    if click.action.Some? {
      HoldsExactly(ClickEnv(env, click), click.action.value, id);
      if x :| x in Window(click.action.value) && Yields(ClickEnv(env, click), click.action.value, x, id) {
        assert ClickYields(env, click, x, id);
      }
    }
  }

  lemma SomeWindowHolds(env: Env, r: Inputs, id: EventId)
    requires r.markers != []
    ensures (exists w :: w in Windows(env, r) && EntryHolds(env, w, id)) <==>
              (exists m: nat :: m < |r.markers| && Holds(PageEnv(env), WindowAction(WindowOf(env, r, m)), id))
              || (exists click :: click in r.clicks && EntryHolds(env, ClickAt(click), id))
  {
    if w :| w in Windows(env, r) && EntryHolds(env, w, id) {
      WindowsAre(env, r, w);
    }
    if m: nat :| m < |r.markers| && Holds(PageEnv(env), WindowAction(WindowOf(env, r, m)), id) {
      var w := PageAt(r.markers[m].stepIndex, WindowOf(env, r, m));
      WindowsAre(env, r, w);
      assert EntryHolds(env, w, id);
    }
    if click :| click in r.clicks && EntryHolds(env, ClickAt(click), id) {
      WindowsAre(env, r, ClickAt(click));
    }
  }

  /** An event is reported exactly when a capture off the clicks' steps yields it in its owner's window, or a capture in a
      click's own window does. Nothing else that was captured is reported. */
  lemma ReportedExactly(env: Env, le: EntryOrder, r: Inputs, id: EventId)
    requires r.markers != []
    ensures RowsNaming(ReportRows(env, le, r), id) >= 1 <==>
              (exists x :: PageYields(env, r, x, id)) || (exists click, x :: click in r.clicks && ClickYields(env, click, x, id))
  {
    NamedOncePerWindow(env, le, r, id);
    SomeMember(Windows(env, r), Holding(env, id));
    SomeWindowHolds(env, r, id);
    SomePageHolds(env, r, id);
    forall click
      ensures EntryHolds(env, ClickAt(click), id) <==> exists x :: ClickYields(env, click, x, id)
    {
      ClickHolds(env, click, id);
    }
  }

  /** The action id hashed into the events of a window; a click without analytics has no window. */
  function ActionIdOf(w: JourneyEntry): Option<Option<string>> {
    match w
    case ClickAt(click) => if click.action.Some? then Some(click.action.value.actionId) else None
    case PageAt(_, window) => Some(Some(window.actionId))
  }

  lemma HeldIds(env: Env, a: Action, id: EventId)
    requires Holds(env, a, id)
    ensures id.actionId == a.actionId
  {
    var e :| e in BuildEntries(env, a, Window(a)) && e.id == id;
    BuiltFrom(env, a, Window(a), e);
    var x :| x in Window(a) && e in EntriesOf(env, a, x);
  }

  lemma IdNamesWindow(env: Env, w: JourneyEntry, id: EventId)
    requires EntryHolds(env, w, id)
    ensures ActionIdOf(w) == Some(id.actionId)
  {
    match w
    case ClickAt(click) => HeldIds(ClickEnv(env, click), click.action.value, id);
    case PageAt(_, window) => HeldIds(PageEnv(env), WindowAction(window), id);
  }

  /** No two windows share an action id. */
  ghost predicate DistinctWindows(env: Env, r: Inputs)
    requires r.markers != []
  {
    var ws := Windows(env, r);
    forall i, j :: 0 <= i < j < |ws| && ActionIdOf(ws[i]).Some? ==> ActionIdOf(ws[i]) != ActionIdOf(ws[j])
  }

  /** Then no event is named twice. */
  lemma ReportedOnce(env: Env, le: EntryOrder, r: Inputs, id: EventId)
    requires r.markers != [] && DistinctWindows(env, r)
    ensures RowsNaming(ReportRows(env, le, r), id) <= 1
  {
    var ws := Windows(env, r);
    forall i, j | 0 <= i < j < |ws|
      ensures !(Holding(env, id)(ws[i]) && Holding(env, id)(ws[j]))
    {
      if Holding(env, id)(ws[i]) && Holding(env, id)(ws[j]) {
        IdNamesWindow(env, ws[i], id);
        IdNamesWindow(env, ws[j], id);
      }
    }
    FilterAtMostOne(ws, Holding(env, id));
    NamedOncePerWindow(env, le, r, id);
  }

  /** Every event of every capture that is not on a click's step is reported, in one row when action ids are distinct. */
  lemma AttributedEventReported(env: Env, le: EntryOrder, r: Inputs, x: Capture, e: Entry)
    requires r.markers != [] && (x in r.ga4 || x in r.pushes) && x.meta.stepIndex !in ClickSteps(r.clicks)
    requires e in EntriesOf(PageEnv(env), WindowAction(WindowOf(env, r, OwnerIn(env, r)(x).value)), x)
    ensures RowsNaming(ReportRows(env, le, r), e.id) >= 1
    ensures DistinctWindows(env, r) ==> RowsNaming(ReportRows(env, le, r), e.id) == 1
  {
    assert PageYields(env, r, x, e.id);
    ReportedExactly(env, le, r, e.id);
    if DistinctWindows(env, r) { ReportedOnce(env, le, r, e.id); }
  }

  /** So is every event of a click's own window. */
  lemma ClickEventReported(env: Env, le: EntryOrder, r: Inputs, click: CtaClick, x: Capture, e: Entry)
    requires r.markers != [] && click in r.clicks && click.action.Some?
    requires x in Window(click.action.value) && e in EntriesOf(ClickEnv(env, click), click.action.value, x)
    ensures RowsNaming(ReportRows(env, le, r), e.id) >= 1
    ensures DistinctWindows(env, r) ==> RowsNaming(ReportRows(env, le, r), e.id) == 1
  {
    assert ClickYields(env, click, x, e.id);
    ReportedExactly(env, le, r, e.id);
    if DistinctWindows(env, r) { ReportedOnce(env, le, r, e.id); }
  }

  /** A capture on a click's step joins no page, whatever its URL. */
  lemma ClickStepJoinsNoPage(env: Env, r: Inputs, x: Capture, m: nat)
    requires m < |r.markers| && x.meta.stepIndex in ClickSteps(r.clicks)
    ensures x !in Window(WindowAction(WindowOf(env, r, m)))
  {
    OwnedCaptures(env, r, m, x);
  }

  lemma RequestHasEvents(env: Env, a: Action, x: Capture)
    requires x.Ga4?
    ensures EntriesOf(env, a, x) != []
  {}

  /** The clicks have no analytics of their own and every capture was made on the step of one. */
  predicate OnlyBareClicks(r: Inputs) {
    && (forall click :: click in r.clicks ==> click.action.None?)
    && (forall x :: x in r.ga4 + r.pushes ==> x.meta.stepIndex in ClickSteps(r.clicks))
  }

  /** Then nothing that was captured is reported. */
  lemma BareClicksLose(env: Env, le: EntryOrder, r: Inputs, id: EventId)
    requires r.markers != [] && OnlyBareClicks(r)
    ensures RowsNaming(ReportRows(env, le, r), id) == 0
  {
    forall x
      ensures !PageYields(env, r, x, id)
    {
      assert x in r.ga4 || x in r.pushes ==> x in r.ga4 + r.pushes;
    }
    ReportedExactly(env, le, r, id);
  }

  /** One such run: a request on the step of its one click, with an event that no row names. */
  lemma CaptureCanBeLost(env: Env, le: EntryOrder, r: Inputs, click: CtaClick, x: Capture, a: Action, id: EventId)
    requires r.markers != [] && r.clicks == [click] && click.action.None?
    requires r.ga4 == [x] && r.pushes == [] && x.Ga4? && x.meta.stepIndex == click.stepIndex
    ensures EntriesOf(env, a, x) != [] && RowsNaming(ReportRows(env, le, r), id) == 0
  {
    RequestHasEvents(env, a, x);
    assert click in r.clicks && OnlyBareClicks(r);
    BareClicksLose(env, le, r, id);
  }

  // ---------------------------------------------------------------- from the captures to the rows

  /** A capture off the clicks' steps holds the event, as part of the window of the page that owns it. */
  ghost predicate PageEvent(env: Env, r: Inputs, x: Capture, id: EventId)
    requires r.markers != []
  {
    && (x in r.ga4 || x in r.pushes)
    && (forall click :: click in r.clicks ==> click.stepIndex != x.meta.stepIndex)
    && exists m: nat :: m < |r.markers| && OwnerIn(env, r)(x) == Some(m) && Logical(Some(PageId(r, m)), x, id)
  }

  /** The action id of a page's window: the start page's, or the page's own step. */
  function PageId(r: Inputs, m: nat): string
    requires m < |r.markers|
  {
    if m == 0 then r.taskId + ":start" else r.taskId + ":page:" + r.printed(r.markers[m].stepIndex)
  }

  /** A click whose analytics hold a capture with the event. */
  ghost predicate ClickOwnEvent(click: CtaClick, x: Capture, id: EventId) {
    click.action.Some? && (x in click.action.value.ga4 || x in click.action.value.pushes)
    && Logical(click.action.value.actionId, x, id)
  }

  lemma PageYieldsExactly(env: Env, r: Inputs, x: Capture, id: EventId)
    requires r.markers != []
    ensures PageYields(env, r, x, id) <==> PageEvent(env, r, x, id)
  {
    if (x in r.ga4 || x in r.pushes) && x.meta.stepIndex !in ClickSteps(r.clicks) {
      var m := OwnerIn(env, r)(x).value;
      YieldsExactly(PageEnv(env), WindowAction(WindowOf(env, r, m)), x, id);
    }
  }

  lemma ClickYieldsExactly(env: Env, click: CtaClick, x: Capture, id: EventId)
    ensures ClickYields(env, click, x, id) <==> ClickOwnEvent(click, x, id)
  {
    if click.action.Some? {
      YieldsExactly(ClickEnv(env, click), click.action.value, x, id);
    }
  }

  /** The report names an event if and only if a capture off the clicks' steps holds it, as part of its page, or a capture in a
      click's own analytics does. */
  lemma CapturedEventsReported(env: Env, le: EntryOrder, r: Inputs, id: EventId)
    requires r.markers != []
    ensures RowsNaming(ReportRows(env, le, r), id) >= 1 <==>
              (exists x :: PageEvent(env, r, x, id)) || (exists click, x :: click in r.clicks && ClickOwnEvent(click, x, id))
  {
    ReportedExactly(env, le, r, id);
    forall x
      ensures PageYields(env, r, x, id) <==> PageEvent(env, r, x, id)
    {
      PageYieldsExactly(env, r, x, id);
    }
    forall click, x
      ensures ClickYields(env, click, x, id) <==> ClickOwnEvent(click, x, id)
    {
      ClickYieldsExactly(env, click, x, id);
    }
  }

  /** The rows name exactly the events that the captures hold. */
  ghost predicate NamesCaptured(env: Env, r: Inputs, rows: seq<Row>)
    requires r.markers != []
  {
    forall id :: RowsNaming(rows, id) >= 1 <==>
      (exists x :: PageEvent(env, r, x, id)) || (exists click, x :: click in r.clicks && ClickOwnEvent(click, x, id))
  }

  lemma ReportNamesCaptured(env: Env, le: EntryOrder, r: Inputs)
    requires r.markers != []
    ensures NamesCaptured(env, r, ReportRows(env, le, r))
  {
    forall id
      ensures RowsNaming(ReportRows(env, le, r), id) >= 1 <==>
        (exists x :: PageEvent(env, r, x, id)) || (exists click, x :: click in r.clicks && ClickOwnEvent(click, x, id))
    {
      CapturedEventsReported(env, le, r, id);
    }
  }

  ghost predicate OffClicks(r: Inputs, x: Capture) {
    forall click :: click in r.clicks ==> click.stepIndex != x.meta.stepIndex
  }

  /** The event is in the report, in one row when no two windows share an action id. */
  ghost predicate InReport(env: Env, le: EntryOrder, r: Inputs, id: EventId)
    requires r.markers != []
  {
    && RowsNaming(ReportRows(env, le, r), id) >= 1
    && (DistinctWindows(env, r) ==> RowsNaming(ReportRows(env, le, r), id) == 1)
  }

  lemma PageEventInReport(env: Env, le: EntryOrder, r: Inputs, x: Capture, id: EventId)
    requires r.markers != [] && PageEvent(env, r, x, id)
    ensures InReport(env, le, r, id)
  {
    CapturedEventsReported(env, le, r, id);
    if DistinctWindows(env, r) {
      ReportedOnce(env, le, r, id);
    }
  }

  /** Every object of a push off the clicks' steps, alone or in a bundle, has a row. */
  lemma PushObjectReported(env: Env, le: EntryOrder, r: Inputs, x: Capture, i: nat, rec: Rec) returns (id: EventId)
    requires r.markers != [] && x in r.pushes && x.Push? && OffClicks(r, x)
    requires i < |x.raw| && (x.raw[i] == Plain(rec) || (x.raw[i].List? && Plain(rec) in x.raw[i].items))
    ensures id.PushId? && id.meta == x.meta && id.payload == rec && InReport(env, le, r, id)
  {
    var j: nat := 0;
    if x.raw[i].List? {
      j :| 0 <= j < |x.raw[i].items| && x.raw[i].items[j] == Plain(rec);
    }
    assert ObjectAt(x.raw, i, j, rec);
    var m := OwnerIn(env, r)(x).value;
    id := PushId(Some(PageId(r, m)), x.meta, Rank(x.raw, i, j), rec);
    assert Logical(Some(PageId(r, m)), x, id);
    PageEventInReport(env, le, r, x, id);
  }

  /** So has every body of a request off the clicks' steps that has no name of its own and more than one body. */
  lemma RequestBodyReported(env: Env, le: EntryOrder, r: Inputs, x: Capture, b: nat) returns (id: EventId)
    requires r.markers != [] && x in r.ga4 && x.Ga4? && OffClicks(r, x)
    requires ("en" in x.params ==> x.params["en"] == "") && 2 <= |x.bodies| && b < |x.bodies|
    ensures id.Ga4Id? && id.meta == x.meta && id.requestUrl == x.requestUrl && id.params == x.params
    ensures id.bodies == [x.bodies[b]] && id.bodyIndex == Some(b) && InReport(env, le, r, id)
  {
    var m := OwnerIn(env, r)(x).value;
    id := Ga4Id(Some(PageId(r, m)), x.meta, x.requestUrl, x.httpMethod, x.measurementId, x.params, [x.bodies[b]], x.rawBody,
        Some(b));
    assert Logical(Some(PageId(r, m)), x, id);
    PageEventInReport(env, le, r, x, id);
  }
}
