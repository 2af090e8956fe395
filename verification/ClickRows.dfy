/** The rows reported for one click or one page window, and where each captured event ends up. */
module ClickRows {
  import opened Wrappers
  import opened Order
  import opened Evidence
  import opened ClickResolution

  datatype RecordType = StartPageRecord | CtaClickRecord | AnalyticsEventRecord | PageVisitRecord

  datatype Role = StartPage | PrimaryClick | ClickCandidate | AssociatedResult | RawCaptureInWindow | PageVisit

  datatype Correlation = NotApplicable | Confirmed | NotResolved | WebsiteNoObservedTag

  /** The fields of a reporting row that say what it is; the evidence fields copied along with the id are left out. */
  datatype Row = Row(
    recordType: RecordType, role: Role, eventId: Option<EventId>, stepIndex: int,
    tagStatus: Option<ClickStatus>, correlation: Correlation, journeySequence: nat)

  type EntryOrder = (Entry, Entry) -> bool

  /** A click and the texts of its element; without an analytics capture only the click itself is reported. */
  datatype CtaClick = CtaClick(stepIndex: int, labels: seq<string>, action: Option<Action>)

  function EventRow(e: Entry, stepIndex: int, role: Role, correlation: Correlation): Row {
    Row(AnalyticsEventRecord, role, Some(e.id), stepIndex, None, correlation, 0)
  }

  function EventRows(es: seq<Entry>, stepIndex: int, role: Role, correlation: Correlation): (r: seq<Row>)
    ensures |r| == |es|
  {
    if es == [] then []
    else EventRows(es[..|es| - 1], stepIndex, role, correlation) + [EventRow(es[|es| - 1], stepIndex, role, correlation)]
  }

  function IsAssociated(): Entry -> bool {
    (e: Entry) => e.item.classification == PhysicalPageChange || e.item.classification == VirtualPageChange
                  || e.item.classification == FormOrConfiguratorState
  }

  function IsOther(): Entry -> bool {
    (e: Entry) => e.item.classification == OtherMeaningfulEvent || e.item.classification == CorrelationUnresolved
  }

  function Removed(es: seq<Entry>, primary: Option<nat>): seq<Entry>
    requires primary.Some? ==> primary.value < |es|
  {
    if primary.Some? then es[..primary.value] + es[primary.value + 1..] else es
  }

  function ClickCorrelation(status: ClickStatus): Correlation {
    match status
    case Captured => Confirmed
    case NoObservedClickTag => WebsiteNoObservedTag
    case _ => NotResolved
  }

  function RowsForCtaClick(env: Env, le: EntryOrder, click: CtaClick): (rows: seq<Row>)
    ensures rows != [] && rows[0].recordType == CtaClickRecord
  {
    if click.action.None? then [Row(CtaClickRecord, PrimaryClick, None, click.stepIndex, None, NotApplicable, 0)]
    else
      var a := click.action.value;
      var entries := ReportingEntries(env, a);
      var clicks := Filter(entries, IsClickEntry());
      var resolved := ReportingPrimary(env, a);
      PrimaryInRange(env, a);
      var eventId := if resolved.primary.Some? then Some(clicks[resolved.primary.value].id) else None;
      var candidateCorrelation := if resolved.status == Captured then Confirmed else NotResolved;
      [Row(CtaClickRecord, PrimaryClick, eventId, click.stepIndex, Some(resolved.status), ClickCorrelation(resolved.status), 0)]
      + EventRows(StableSort(Removed(clicks, resolved.primary), le), click.stepIndex, ClickCandidate, candidateCorrelation)
      + EventRows(StableSort(Filter(entries, IsAssociated()), le), click.stepIndex, AssociatedResult, Confirmed)
      + EventRows(StableSort(Filter(entries, IsOther()), le), click.stepIndex, RawCaptureInWindow, NotResolved)
  }

  lemma PrimaryInRange(env: Env, a: Action)
    ensures var p := ReportingPrimary(env, a).primary;
            p.Some? ==> p.value < |Filter(ReportingEntries(env, a), IsClickEntry())|
  {}

  /** Pushing one row for each sorted entry, as the row builders do. */
  method PushEventRows(rows: seq<Row>, es: seq<Entry>, stepIndex: int, role: Role, correlation: Correlation)
      returns (longer: seq<Row>)
    ensures longer == rows + EventRows(es, stepIndex, role, correlation)
  {
    longer := rows;
    for i := 0 to |es|
      invariant longer == rows + EventRows(es[..i], stepIndex, role, correlation)
    {
      assert es[..i + 1][..i] == es[..i];
      longer := longer + [EventRow(es[i], stepIndex, role, correlation)];
    }
    assert es[..|es|] == es;
  }

  method BuildRowsForCtaClick(env: Env, le: EntryOrder, click: CtaClick) returns (rows: seq<Row>)
    ensures rows == RowsForCtaClick(env, le, click)
  {
    if click.action.None? {
      return [Row(CtaClickRecord, PrimaryClick, None, click.stepIndex, None, NotApplicable, 0)];
    }
    var a := click.action.value;
    var entries := Deduplicate(BuildEntries(env, a, Window(a)), IdOf());
    var clicks := Filter(entries, IsClickEntry());
    var engine := EngineStatus(env, a);
    var resolved;
    if engine == ConsentUnknown {
      resolved := Resolution(ConsentUncertain, None);
    } else if engine == Incomplete {
      resolved := Resolution(CaptureIncomplete, None);
    } else {
      resolved := ResolveClickTag(env.read, Items(clicks), AnyUnresolved(Items(entries)));
    }
    PrimaryInRange(env, a);
    var eventId := None;
    if resolved.primary.Some? {
      eventId := Some(clicks[resolved.primary.value].id);
    }
    rows := [Row(CtaClickRecord, PrimaryClick, eventId, click.stepIndex, Some(resolved.status),
        ClickCorrelation(resolved.status), 0)];
    rows := PushEventRows(rows, StableSort(Removed(clicks, resolved.primary), le), click.stepIndex, ClickCandidate,
                          if resolved.status == Captured then Confirmed else NotResolved);
    rows := PushEventRows(rows, StableSort(Filter(entries, IsAssociated()), le), click.stepIndex, AssociatedResult, Confirmed);
    rows := PushEventRows(rows, StableSort(Filter(entries, IsOther()), le), click.stepIndex, RawCaptureInWindow, NotResolved);
  }

  // ---------------------------------------------------------------- conservation

  /** How many of `es` carry the identity. */
  function Carrying(es: seq<Entry>, id: EventId): nat {
    if es == [] then 0 else Carrying(es[..|es| - 1], id) + if es[|es| - 1].id == id then 1 else 0
  }

  /** How many rows name the event. */
  function RowsNaming(rows: seq<Row>, id: EventId): nat {
    if rows == [] then 0 else RowsNaming(rows[..|rows| - 1], id) + if rows[|rows| - 1].eventId == Some(id) then 1 else 0
  }

  lemma {:induction false} RowsNamingConcat(x: seq<Row>, y: seq<Row>, id: EventId)
    ensures RowsNaming(x + y, id) == RowsNaming(x, id) + RowsNaming(y, id)
  {
    if y == [] {
      assert x + y == x;
    } else {
      RowsNamingConcat(x, y[..|y| - 1], id);
      assert (x + y)[..|x + y| - 1] == x + y[..|y| - 1];
    }
  }

  lemma CarryingSnoc(es: seq<Entry>, e: Entry, id: EventId)
    ensures Carrying(es + [e], id) == Carrying(es, id) + if e.id == id then 1 else 0
  {
    assert (es + [e])[..|es|] == es;
  }

  lemma {:induction false} CarryingConcat(x: seq<Entry>, y: seq<Entry>, id: EventId)
    ensures Carrying(x + y, id) == Carrying(x, id) + Carrying(y, id)
  {
    if y == [] {
      assert x + y == x;
    } else {
      CarryingConcat(x, y[..|y| - 1], id);
      assert (x + y)[..|x + y| - 1] == x + y[..|y| - 1];
    }
  }

  lemma {:induction false} EventRowsNaming(es: seq<Entry>, stepIndex: int, role: Role, correlation: Correlation, id: EventId)
    ensures RowsNaming(EventRows(es, stepIndex, role, correlation), id) == Carrying(es, id)
  {
    if es != [] {
      EventRowsNaming(es[..|es| - 1], stepIndex, role, correlation, id);
      var rows := EventRows(es, stepIndex, role, correlation);
      assert rows[..|rows| - 1] == EventRows(es[..|es| - 1], stepIndex, role, correlation);
    }
  }

  lemma {:induction false} InsertCarrying(xs: seq<Entry>, x: Entry, le: EntryOrder, id: EventId)
    ensures Carrying(Insert(xs, x, le), id) == Carrying(xs + [x], id)
  {
    if xs != [] && !le(xs[|xs| - 1], x) {
      var front, last := xs[..|xs| - 1], xs[|xs| - 1];
      InsertCarrying(front, x, le, id);
      CarryingSnoc(Insert(front, x, le), last, id);
      CarryingSnoc(front, x, id);
      CarryingSnoc(xs, x, id);
    }
  }

  lemma {:induction false} SortedCarrying(xs: seq<Entry>, le: EntryOrder, id: EventId)
    ensures Carrying(StableSort(xs, le), id) == Carrying(xs, id)
  {
    if xs != [] {
      var front, last := xs[..|xs| - 1], xs[|xs| - 1];
      SortedCarrying(front, le, id);
      InsertCarrying(StableSort(front, le), last, le, id);
      CarryingSnoc(StableSort(front, le), last, id);
    }
  }

  lemma FilterSnocCarrying(xs: seq<Entry>, e: Entry, p: Entry -> bool, id: EventId)
    ensures Carrying(Filter(xs + [e], p), id) == Carrying(Filter(xs, p), id) + if p(e) && e.id == id then 1 else 0
  {
    FilterSnoc(xs, e, p);
    if p(e) {
      CarryingSnoc(Filter(xs, p), e, id);
    }
  }

  /** The three groups share out the entries. */
  lemma {:induction false} GroupsShareOut(xs: seq<Entry>, id: EventId)
    ensures Carrying(Filter(xs, IsClickEntry()), id) + Carrying(Filter(xs, IsAssociated()), id)
        + Carrying(Filter(xs, IsOther()), id)
            == Carrying(xs, id)
  {
    if xs != [] {
      var front, last := xs[..|xs| - 1], xs[|xs| - 1];
      assert xs == front + [last];
      GroupsShareOut(front, id);
      FilterSnocCarrying(front, last, IsClickEntry(), id);
      FilterSnocCarrying(front, last, IsAssociated(), id);
      FilterSnocCarrying(front, last, IsOther(), id);
      CarryingSnoc(front, last, id);
    }
  }

  lemma RemovedCarrying(es: seq<Entry>, i: nat, id: EventId)
    requires i < |es|
    ensures Carrying(es, id) == (if es[i].id == id then 1 else 0) + Carrying(Removed(es, Some(i)), id)
  {
    assert es == (es[..i] + [es[i]]) + es[i + 1..];
    CarryingConcat(es[..i] + [es[i]], es[i + 1..], id);
    CarryingSnoc(es[..i], es[i], id);
    CarryingConcat(es[..i], es[i + 1..], id);
  }

  /** Among entries of distinct identities, one carries a given identity or none does. */
  lemma {:induction false} DistinctCarrying(es: seq<Entry>, id: EventId)
    requires forall i, j :: 0 <= i < j < |es| ==> !SameId(es[i], es[j], IdOf())
    ensures Carrying(es, id) == if exists e :: e in es && e.id == id then 1 else 0
  {
    if es != [] {
      var front, last := es[..|es| - 1], es[|es| - 1];
      if last.id == id {
        NoneCarrying(es, |front|, id);
        assert last in es;
      } else {
        DistinctCarrying(front, id);
        assert forall e :: e in es <==> e in front || e == last;
      }
    }
  }

  lemma {:induction false} NoneCarrying(es: seq<Entry>, n: nat, id: EventId)
    requires n < |es| && es[n].id == id
    requires forall i :: 0 <= i < n ==> !SameId(es[i], es[n], IdOf())
    ensures Carrying(es[..n], id) == 0
  {
    NotCarried(es[..n], id);
  }

  lemma {:induction false} NotCarried(es: seq<Entry>, id: EventId)
    requires forall i :: 0 <= i < |es| ==> es[i].id != id
    ensures Carrying(es, id) == 0
  {
    if es != [] {
      NotCarried(es[..|es| - 1], id);
    }
  }

  lemma FourParts(head: Row, x: seq<Row>, y: seq<Row>, z: seq<Row>, id: EventId)
    ensures RowsNaming([head] + x + y + z, id) ==
              (if head.eventId == Some(id) then 1 else 0) + RowsNaming(x, id) + RowsNaming(y, id) + RowsNaming(z, id)
  {
    RowsNamingConcat([head] + x + y, z, id);
    RowsNamingConcat([head] + x, y, id);
    RowsNamingConcat([head], x, id);
    assert [head][..0] == [];
  }

  lemma SortedRowsNaming(es: seq<Entry>, le: EntryOrder, stepIndex: int, role: Role, correlation: Correlation, id: EventId)
    ensures RowsNaming(EventRows(StableSort(es, le), stepIndex, role, correlation), id) == Carrying(es, id)
  {
    EventRowsNaming(StableSort(es, le), stepIndex, role, correlation, id);
    SortedCarrying(es, le, id);
  }

  /** One head row and three groups name each event as often as the entries carry it, whichever click is the primary. */
  lemma PartsNameEntries(le: EntryOrder, entries: seq<Entry>, primary: Option<nat>, head: Row, correlation: Correlation,
      id: EventId)
    requires var clicks := Filter(entries, IsClickEntry());
             if primary.Some? then primary.value < |clicks| && head.eventId == Some(clicks[primary.value].id)
                 else head.eventId.None?
    ensures RowsNaming(
              [head]
              + EventRows(StableSort(Removed(Filter(entries, IsClickEntry()), primary), le), head.stepIndex, ClickCandidate,
                  correlation)
              + EventRows(StableSort(Filter(entries, IsAssociated()), le), head.stepIndex, AssociatedResult, Confirmed)
              + EventRows(StableSort(Filter(entries, IsOther()), le), head.stepIndex, RawCaptureInWindow, NotResolved), id)
            == Carrying(entries, id)
  {
    var clicks := Filter(entries, IsClickEntry());
    FourParts(
      head,
      EventRows(StableSort(Removed(clicks, primary), le), head.stepIndex, ClickCandidate, correlation),
      EventRows(StableSort(Filter(entries, IsAssociated()), le), head.stepIndex, AssociatedResult, Confirmed),
      EventRows(StableSort(Filter(entries, IsOther()), le), head.stepIndex, RawCaptureInWindow, NotResolved), id);
    SortedRowsNaming(Removed(clicks, primary), le, head.stepIndex, ClickCandidate, correlation, id);
    SortedRowsNaming(Filter(entries, IsAssociated()), le, head.stepIndex, AssociatedResult, Confirmed, id);
    SortedRowsNaming(Filter(entries, IsOther()), le, head.stepIndex, RawCaptureInWindow, NotResolved, id);
    GroupsShareOut(entries, id);
    if primary.Some? {
      RemovedCarrying(clicks, primary.value, id);
    }
  }

  /** The rows of a click name each event as often as the deduplicated window carries it. */
  lemma RowsNameEntries(env: Env, le: EntryOrder, click: CtaClick, id: EventId)
    requires click.action.Some?
    ensures RowsNaming(RowsForCtaClick(env, le, click), id) == Carrying(ReportingEntries(env, click.action.value), id)
  {
    var resolved := ReportingPrimary(env, click.action.value);
    PrimaryInRange(env, click.action.value);
    PartsNameEntries(le, ReportingEntries(env, click.action.value), resolved.primary, RowsForCtaClick(env, le, click)[0],
                     if resolved.status == Captured then Confirmed else NotResolved, id);
  }

  /** The window's captures expand to an event of this identity. */
  predicate Holds(env: Env, a: Action, id: EventId) {
    exists e :: e in BuildEntries(env, a, Window(a)) && e.id == id
  }

  /** Deduplication leaves one entry of each identity met in the window. */
  lemma WindowCarrying(env: Env, a: Action, id: EventId)
    ensures Carrying(ReportingEntries(env, a), id) == if Holds(env, a, id) then 1 else 0
  {
    var all, kept := BuildEntries(env, a, Window(a)), ReportingEntries(env, a);
    FirstOccurrencesHold(all, IdOf());
    DistinctCarrying(kept, id);
    if e :| e in all && e.id == id {
      assert IdOf()(e).Some?;
      var k :| k in kept && SameId(k, e, IdOf());
    }
  }

  /** Every distinct event in a click's window is reported in exactly one row of that click, and no other event is. */
  lemma EachEventInOneRow(env: Env, le: EntryOrder, click: CtaClick, id: EventId)
    requires click.action.Some?
    ensures RowsNaming(RowsForCtaClick(env, le, click), id) == if Holds(env, click.action.value, id) then 1 else 0
  {
    RowsNameEntries(env, le, click, id);
    WindowCarrying(env, click.action.value, id);
  }

  /** The click's own row names an event exactly when its tag was captured, and then it is the engine-style primary. */
  lemma ClickRowNamesEventIffCaptured(env: Env, le: EntryOrder, click: CtaClick)
    requires click.action.Some?
    ensures var row := RowsForCtaClick(env, le, click)[0];
            && (row.eventId.Some? <==> row.tagStatus == Some(Captured))
            && (row.correlation == Confirmed <==> row.tagStatus == Some(Captured))
            && row.tagStatus == Some(ReportingPrimary(env, click.action.value).status)
  {}

  lemma {:induction false} EventRowsAtStep(es: seq<Entry>, stepIndex: int, role: Role, correlation: Correlation)
    ensures forall r :: r in EventRows(es, stepIndex, role, correlation) ==> r.stepIndex == stepIndex && r.role == role
  {
    if es != [] {
      EventRowsAtStep(es[..|es| - 1], stepIndex, role, correlation);
    }
  }

  lemma ClickRowsAtStep(env: Env, le: EntryOrder, click: CtaClick)
    ensures forall r :: r in RowsForCtaClick(env, le, click) ==> r.stepIndex == click.stepIndex
  {
    if click.action.Some? {
      var a := click.action.value;
      var entries := ReportingEntries(env, a);
      var resolved := ReportingPrimary(env, a);
      PrimaryInRange(env, a);
      EventRowsAtStep(StableSort(Removed(Filter(entries, IsClickEntry()), resolved.primary), le), click.stepIndex, ClickCandidate,
                   if resolved.status == Captured then Confirmed else NotResolved);
      EventRowsAtStep(StableSort(Filter(entries, IsAssociated()), le), click.stepIndex, AssociatedResult, Confirmed);
      EventRowsAtStep(StableSort(Filter(entries, IsOther()), le), click.stepIndex, RawCaptureInWindow, NotResolved);
    }
  }
}
