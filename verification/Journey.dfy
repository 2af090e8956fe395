/** The whole report of a run: start block, then clicks and later pages in step order, numbered from one. */
module Journey {
  import opened Wrappers
  import opened Order
  import opened UrlRelations
  import opened Evidence
  import opened ClickResolution
  import opened ClickRows
  import opened Attribution

  /** A page window has no click: page-load evidence is associated, everything else is raw. */
  function WindowRow(e: Entry, stepIndex: int): Row {
    if e.item.classification == PhysicalPageChange || e.item.classification == VirtualPageChange
    then EventRow(e, stepIndex, AssociatedResult, Confirmed)
    else EventRow(e, stepIndex, RawCaptureInWindow, NotResolved)
  }

  function WindowEventRows(es: seq<Entry>, stepIndex: int): (r: seq<Row>)
    ensures |r| == |es| && forall i :: 0 <= i < |r| ==> r[i] == WindowRow(es[i], stepIndex)
  {
    seq(|es|, i requires 0 <= i < |es| => WindowRow(es[i], stepIndex))
  }

  datatype PageWindow = PageWindow(ga4: seq<Capture>, pushes: seq<Capture>, targets: seq<string>, actionId: string)

  function WindowAction(w: PageWindow): Action {
    Action(w.ga4, w.pushes, w.targets, Some(w.actionId), false, false, true, false, false)
  }

  /** No element was clicked, so no label can match. */
  function PageEnv(env: Env): Env {
    env.(labels := [])
  }

  function ClickEnv(env: Env, click: CtaClick): Env {
    env.(labels := click.labels)
  }

  function RowsForEvidenceWindow(env: Env, le: EntryOrder, w: PageWindow, stepIndex: int): seq<Row> {
    WindowEventRows(StableSort(ReportingEntries(PageEnv(env), WindowAction(w)), le), stepIndex)
  }

  /** One entry of the merged journey: a click, or a later page marker with the evidence attributed to it. */
  datatype JourneyEntry = ClickAt(click: CtaClick) | PageAt(stepIndex: int, window: PageWindow)

  function StepOf(e: JourneyEntry): int {
    match e
    case ClickAt(click) => click.stepIndex
    case PageAt(stepIndex, _) => stepIndex
  }

  function ByStep(): (JourneyEntry, JourneyEntry) -> bool {
    (a: JourneyEntry, b: JourneyEntry) => StepOf(a) <= StepOf(b)
  }

  function RowsForEntry(env: Env, le: EntryOrder, e: JourneyEntry): seq<Row> {
    match e
    case ClickAt(click) => RowsForCtaClick(ClickEnv(env, click), le, click)
    case PageAt(stepIndex, window) =>
      [Row(PageVisitRecord, PageVisit, None, stepIndex, None, NotApplicable, 0)]
          + RowsForEvidenceWindow(env, le, window, stepIndex)
  }

  function RowsForEntries(env: Env, le: EntryOrder, es: seq<JourneyEntry>): seq<Row> {
    if es == [] then [] else RowsForEntries(env, le, es[..|es| - 1]) + RowsForEntry(env, le, es[|es| - 1])
  }

  function StartBlock(env: Env, le: EntryOrder, startStep: int, start: PageWindow): seq<Row> {
    [Row(StartPageRecord, StartPage, None, startStep, None, NotApplicable, 0)] + RowsForEvidenceWindow(env, le, start, startStep)
  }

  function Numbered(rows: seq<Row>): (r: seq<Row>)
    ensures |r| == |rows| && forall i :: 0 <= i < |r| ==> r[i] == rows[i].(journeySequence := i + 1)
  {
    seq(|rows|, i requires 0 <= i < |rows| => rows[i].(journeySequence := i + 1))
  }

  function JourneyRows(env: Env, le: EntryOrder, startStep: int, start: PageWindow, entries: seq<JourneyEntry>): seq<Row> {
    Numbered(StartBlock(env, le, startStep, start) + RowsForEntries(env, le, StableSort(entries, ByStep())))
  }

  method BuildRowsForEntry(env: Env, le: EntryOrder, e: JourneyEntry) returns (rows: seq<Row>)
    ensures rows == RowsForEntry(env, le, e)
  {
    match e {
      case ClickAt(click) =>
        rows := BuildRowsForCtaClick(ClickEnv(env, click), le, click);
      case PageAt(stepIndex, window) =>
        rows := [Row(PageVisitRecord, PageVisit, None, stepIndex, None, NotApplicable, 0)]
            + RowsForEvidenceWindow(env, le, window, stepIndex);
    }
  }

  lemma RowsForEntriesSnoc(env: Env, le: EntryOrder, es: seq<JourneyEntry>, i: nat)
    requires i < |es|
    ensures RowsForEntries(env, le, es[..i + 1]) == RowsForEntries(env, le, es[..i]) + RowsForEntry(env, le, es[i])
  {
    assert es[..i + 1][..i] == es[..i];
  }

  /** The final loops: rows pushed entry by entry in step order, then numbered. */
  method BuildAnalyticsReportingRows(env: Env, le: EntryOrder, startStep: int, start: PageWindow, entries: seq<JourneyEntry>)
      returns (rows: seq<Row>)
    ensures rows == JourneyRows(env, le, startStep, start, entries)
  {
    var ordered := StableSort(entries, ByStep());
    var later: seq<Row> := [];
    for i := 0 to |ordered|
      invariant later == RowsForEntries(env, le, ordered[..i])
    {
      RowsForEntriesSnoc(env, le, ordered, i);
      var more := BuildRowsForEntry(env, le, ordered[i]);
      later := later + more;
    }
    assert ordered[..|ordered|] == ordered;
    rows := Numbered(StartBlock(env, le, startStep, start) + later);
  }

  lemma EntryRowsAtStep(env: Env, le: EntryOrder, e: JourneyEntry)
    ensures RowsForEntry(env, le, e) != []
    ensures forall r :: r in RowsForEntry(env, le, e) ==> r.stepIndex == StepOf(e)
  {
    match e
    case ClickAt(click) => ClickRowsAtStep(ClickEnv(env, click), le, click);
    case PageAt(_, _) =>
  }

  ghost predicate StepsNeverFall(rows: seq<Row>) {
    forall i, j :: 0 <= i < j < |rows| ==> rows[i].stepIndex <= rows[j].stepIndex
  }

  lemma {:induction false} EntriesRowsOrdered(env: Env, le: EntryOrder, es: seq<JourneyEntry>)
    requires SortedBy(es, ByStep())
    ensures StepsNeverFall(RowsForEntries(env, le, es))
    ensures forall r :: r in RowsForEntries(env, le, es) ==> es != [] && r.stepIndex <= StepOf(es[|es| - 1])
  {
    if es != [] {
      var front, last := es[..|es| - 1], es[|es| - 1];
      EntriesRowsOrdered(env, le, front);
      EntryRowsAtStep(env, le, last);
      var x, y := RowsForEntries(env, le, front), RowsForEntry(env, le, last);
      forall i | 0 <= i < |x|
        ensures x[i].stepIndex <= StepOf(last)
      {
        assert x[i] in x;
        assert ByStep()(es[|front| - 1], last);
      }
      forall i | 0 <= i < |y|
        ensures y[i].stepIndex == StepOf(last)
      {
        assert y[i] in y;
      }
    }
  }

  lemma StepOrder()
    ensures TotalPreorder(ByStep())
  {}

  lemma NumberedSuffix(block: seq<Row>, rest: seq<Row>)
    requires StepsNeverFall(rest)
    ensures StepsNeverFall(Numbered(block + rest)[|block|..])
  {
    var rows := Numbered(block + rest);
    forall i | 0 <= i < |rest|
      ensures rows[|block|..][i].stepIndex == rest[i].stepIndex
    {
      assert (block + rest)[|block| + i] == rest[i];
    }
  }

  lemma NumberedPrefix(block: seq<Row>, rest: seq<Row>, step: int)
    requires forall i :: 0 <= i < |block| ==> block[i].stepIndex == step
    ensures forall i :: 0 <= i < |block| ==>
              Numbered(block + rest)[i].stepIndex == step && Numbered(block + rest)[i].recordType == block[i].recordType
  {
    forall i | 0 <= i < |block|
      ensures Numbered(block + rest)[i].stepIndex == step && Numbered(block + rest)[i].recordType == block[i].recordType
    {
      assert (block + rest)[i] == block[i];
    }
  }

  /** Numbered from 1, `n` rows on the start step led by the start page, then rows whose step never falls. */
  ghost predicate WellOrdered(rows: seq<Row>, n: nat, startStep: int) {
    && 1 <= n <= |rows|
    && (forall i :: 0 <= i < |rows| ==> rows[i].journeySequence == i + 1)
    && (forall i :: 0 <= i < n ==> rows[i].stepIndex == startStep)
    && rows[0].recordType == StartPageRecord
    && StepsNeverFall(rows[n..])
  }

  lemma BlockThenRest(block: seq<Row>, rest: seq<Row>, startStep: int)
    requires block != [] && block[0].recordType == StartPageRecord && StepsNeverFall(rest)
    requires forall i :: 0 <= i < |block| ==> block[i].stepIndex == startStep
    ensures WellOrdered(Numbered(block + rest), |block|, startStep)
  {
    NumberedSuffix(block, rest);
    NumberedPrefix(block, rest, startStep);
  }

  lemma StartBlockAtStep(env: Env, le: EntryOrder, startStep: int, start: PageWindow)
    ensures var block := StartBlock(env, le, startStep, start);
            && block != [] && block[0].recordType == StartPageRecord
            && forall i :: 0 <= i < |block| ==> block[i].stepIndex == startStep
  {}

  lemma SortedEntriesOrdered(env: Env, le: EntryOrder, entries: seq<JourneyEntry>)
    ensures StepsNeverFall(RowsForEntries(env, le, StableSort(entries, ByStep())))
  {
    StepOrder();
    StableSortSorted(entries, ByStep());
    EntriesRowsOrdered(env, le, StableSort(entries, ByStep()));
  }

  /** Sequence numbers run from 1 without gaps, the start block stays on the start step and comes first, and from then
      on the step index never falls. */
  lemma JourneyOrdered(env: Env, le: EntryOrder, startStep: int, start: PageWindow, entries: seq<JourneyEntry>)
    ensures WellOrdered(JourneyRows(env, le, startStep, start, entries), |StartBlock(env, le, startStep, start)|, startStep)
  {
    SortedEntriesOrdered(env, le, entries);
    StartBlockAtStep(env, le, startStep, start);
    var block, rest := StartBlock(env, le, startStep, start), RowsForEntries(env, le, StableSort(entries, ByStep()));
    BlockThenRest(block, rest, startStep);
  }

  lemma {:induction false} WindowRowsNaming(es: seq<Entry>, stepIndex: int, id: EventId)
    ensures RowsNaming(WindowEventRows(es, stepIndex), id) == Carrying(es, id)
  {
    if es != [] {
      WindowRowsNaming(es[..|es| - 1], stepIndex, id);
      assert WindowEventRows(es, stepIndex)[..|es| - 1] == WindowEventRows(es[..|es| - 1], stepIndex);
    }
  }

  /** A page window reports each of its distinct events in exactly one row, like a click's window does. */
  lemma EachPageEventInOneRow(env: Env, le: EntryOrder, w: PageWindow, stepIndex: int, id: EventId)
    ensures RowsNaming(RowsForEvidenceWindow(env, le, w, stepIndex), id) == if Holds(PageEnv(env), WindowAction(w), id) then 1
        else 0
  {
    var kept := ReportingEntries(PageEnv(env), WindowAction(w));
    WindowRowsNaming(StableSort(kept, le), stepIndex, id);
    SortedCarrying(kept, le, id);
    WindowCarrying(PageEnv(env), WindowAction(w), id);
  }

  // ---------------------------------------------------------------- what the whole journey names

  /** The entry's own window holds the event. */
  predicate EntryHolds(env: Env, e: JourneyEntry, id: EventId) {
    match e
    case ClickAt(click) => click.action.Some? && Holds(ClickEnv(env, click), click.action.value, id)
    case PageAt(_, window) => Holds(PageEnv(env), WindowAction(window), id)
  }

  function Holding(env: Env, id: EventId): JourneyEntry -> bool {
    (e: JourneyEntry) => EntryHolds(env, e, id)
  }

  /** A marker row names no event. */
  lemma MarkerNamesNothing(marker: Row, rows: seq<Row>, id: EventId)
    requires marker.eventId.None?
    ensures RowsNaming([marker] + rows, id) == RowsNaming(rows, id)
  {
    RowsNamingConcat([marker], rows, id);
    assert [marker][..0] == [];
  }

  lemma EntryNames(env: Env, le: EntryOrder, e: JourneyEntry, id: EventId)
    ensures RowsNaming(RowsForEntry(env, le, e), id) == if EntryHolds(env, e, id) then 1 else 0
  {
    match e
    case ClickAt(click) =>
      if click.action.Some? {
        EachEventInOneRow(ClickEnv(env, click), le, click, id);
      } else {
        MarkerNamesNothing(RowsForEntry(env, le, e)[0], [], id);
      }
    case PageAt(stepIndex, window) =>
      EachPageEventInOneRow(env, le, window, stepIndex, id);
      MarkerNamesNothing(RowsForEntry(env, le, e)[0], RowsForEvidenceWindow(env, le, window, stepIndex), id);
  }

  lemma {:induction false} EntriesName(env: Env, le: EntryOrder, es: seq<JourneyEntry>, id: EventId)
    ensures RowsNaming(RowsForEntries(env, le, es), id) == |Filter(es, Holding(env, id))|
  {
    if es != [] {
      var front, last := es[..|es| - 1], es[|es| - 1];
      assert es == front + [last];
      EntriesName(env, le, front, id);
      EntryNames(env, le, last, id);
      RowsNamingConcat(RowsForEntries(env, le, front), RowsForEntry(env, le, last), id);
      FilterSnoc(front, last, Holding(env, id));
    }
  }

  lemma {:induction false} NumberingKeepsNames(rows: seq<Row>, id: EventId)
    ensures RowsNaming(Numbered(rows), id) == RowsNaming(rows, id)
  {
    if rows != [] {
      NumberingKeepsNames(rows[..|rows| - 1], id);
      assert Numbered(rows)[..|rows| - 1] == Numbered(rows[..|rows| - 1]);
    }
  }

  /** The report names an event once for every window that holds it: the start page's, a later page's or a click's. */
  lemma JourneyNames(env: Env, le: EntryOrder, startStep: int, start: PageWindow, entries: seq<JourneyEntry>, id: EventId)
    ensures RowsNaming(JourneyRows(env, le, startStep, start, entries), id) ==
              |Filter([PageAt(startStep, start)] + entries, Holding(env, id))|
  {
    var first, sorted := PageAt(startStep, start), StableSort(entries, ByStep());
    var block, rest := StartBlock(env, le, startStep, start), RowsForEntries(env, le, sorted);
    NumberingKeepsNames(block + rest, id);
    RowsNamingConcat(block, rest, id);
    EachPageEventInOneRow(env, le, start, startStep, id);
    MarkerNamesNothing(block[0], RowsForEvidenceWindow(env, le, start, startStep), id);
    EntriesName(env, le, sorted, id);
    SortKeepsCount(entries, ByStep(), Holding(env, id));
    assert ([first] + entries)[1..] == entries;
  }
}
