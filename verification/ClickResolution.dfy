/** The engine's click resolution over whole captures, the reporting layer's over deduplicated logical events, and why
    the second refines the first. */
module ClickResolution {
  import opened Wrappers
  import opened Order
  import opened UrlRelations
  import opened Evidence

  /** What resolution looks at in one piece of evidence. */
  datatype Item = Item(classification: Classification, destination: Option<string>, score: int)

  datatype ClickStatus = Captured | NoObservedClickTag | Unresolved | CaptureIncomplete | ConsentUncertain

  datatype CaptureStatus = CapturedTag | NoObservedTag | Incomplete | CorrelationUncertain | ConsentUnknown

  /** One click's capture window and the gates decided before it is read. */
  datatype Action = Action(
    ga4: seq<Capture>, pushes: seq<Capture>, targets: seq<string>, actionId: Option<string>,
    consentRequired: bool, consentGranted: bool, captureComplete: bool,
    dataLayerHasNewEntries: bool, dataLayerReplaced: bool)

  function MakeItem(env: Env, f: Fields, targets: seq<string>): Item {
    Item(ClassifyEvidenceItem(env, f, targets), f.destination, ClickRichnessScore(env, f))
  }

  // ---------------------------------------------------------------- conflicts and the richest record

  function Destinations(items: seq<Item>): seq<string> {
    if items == [] then []
    else Destinations(items[..|items| - 1]) +
         if Truthy(items[|items| - 1].destination) then [items[|items| - 1].destination.value] else []
  }

  predicate Conflict(read: UrlReader, a: string, b: string) {
    ComputeUrlRelationship(read, Some(a), Some(b)) == DifferentDestination
  }

  predicate HasConflict(read: UrlReader, ds: seq<string>) {
    exists i, j :: 0 <= i < j < |ds| && Conflict(read, ds[i], ds[j])
  }

  /** The pairwise loop over the destinations named by the click records. */
  method FindConflict(read: UrlReader, ds: seq<string>) returns (found: bool)
    ensures found <==> HasConflict(read, ds)
  {
    for i := 0 to |ds|
      invariant forall k, j :: 0 <= k < i && k < j < |ds| ==> !Conflict(read, ds[k], ds[j])
    {
      for j := i + 1 to |ds|
        invariant forall k :: i < k < j ==> !Conflict(read, ds[i], ds[k])
      {
        if Conflict(read, ds[i], ds[j]) {
          return true;
        }
      }
    }
    found := false;
  }

  /** The first record with the highest score. */
  function Richest(items: seq<Item>): (r: nat)
    requires items != []
    ensures r < |items|
    ensures forall j :: 0 <= j < |items| ==> items[j].score <= items[r].score
    ensures forall j :: 0 <= j < r ==> items[j].score < items[r].score
  {
    if |items| == 1 then 0
    else
      var best := Richest(items[..|items| - 1]);
      if items[|items| - 1].score > items[best].score then |items| - 1 else best
  }

  method PickRichest(items: seq<Item>) returns (primary: nat)
    requires items != []
    ensures primary == Richest(items)
  {
    primary := 0;
    var bestScore := items[0].score;
    for i := 1 to |items|
      invariant primary < i && bestScore == items[primary].score
      invariant primary == Richest(items[..i])
    {
      assert items[..i + 1][..i] == items[..i];
      if items[i].score > bestScore {
        bestScore := items[i].score;
        primary := i;
      }
    }
    assert items[..|items|] == items;
  }

  /** The outcome over the click records: the status and, when captured, which of them is primary. */
  datatype Resolution = Resolution(status: ClickStatus, primary: Option<nat>)

  function Resolve(read: UrlReader, clicks: seq<Item>, unresolved: bool): (r: Resolution)
    ensures r.status == Captured <==> r.primary.Some?
    ensures r.primary.Some? ==> r.primary.value < |clicks|
  {
    if clicks == [] then Resolution(if unresolved then Unresolved else NoObservedClickTag, None)
    else if HasConflict(read, Destinations(clicks)) then Resolution(Unresolved, None)
    else Resolution(Captured, Some(Richest(clicks)))
  }

  method ResolveClickTag(read: UrlReader, clicks: seq<Item>, unresolved: bool) returns (r: Resolution)
    ensures r == Resolve(read, clicks, unresolved)
  {
    if clicks == [] {
      return Resolution(if unresolved then Unresolved else NoObservedClickTag, None);
    }
    var conflict := FindConflict(read, Destinations(clicks));
    if conflict {
      return Resolution(Unresolved, None);
    }
    var primary := PickRichest(clicks);
    r := Resolution(Captured, Some(primary));
  }

  // ---------------------------------------------------------------- the engine, capture by capture

  function CaptureFields(env: Env, x: Capture): Fields {
    match x
    case Ga4(_, _, _, _, params, bodies, _) => ReadGa4Fields(env, params, bodies)
    case Push(_, _, raw) => ReadDataLayerFields(env, AsRecs(raw))
  }

  function EngineItem(env: Env, targets: seq<string>, x: Capture): Item {
    MakeItem(env, CaptureFields(env, x), targets)
  }

  function EngineItems(env: Env, targets: seq<string>, xs: seq<Capture>): (r: seq<Item>)
    ensures |r| == |xs| && forall i :: 0 <= i < |r| ==> r[i] == EngineItem(env, targets, xs[i])
  {
    if xs == [] then [] else EngineItems(env, targets, xs[..|xs| - 1]) + [EngineItem(env, targets, xs[|xs| - 1])]
  }

  function IsClick(): Item -> bool {
    (x: Item) => x.classification == ClickEvent
  }

  predicate AnyUnresolved(items: seq<Item>) {
    exists x :: x in items && x.classification == CorrelationUnresolved
  }

  predicate Confirming(c: Classification) {
    c == ClickEvent || c == PhysicalPageChange || c == VirtualPageChange || c == FormOrConfiguratorState
  }

  predicate AnyConfirmed(items: seq<Item>) {
    exists x :: x in items && Confirming(x.classification)
  }

  lemma AnyConfirmedSnoc(items: seq<Item>, item: Item)
    ensures AnyConfirmed(items + [item]) <==> AnyConfirmed(items) || Confirming(item.classification)
  {
    assert item in items + [item] && forall x :: x in items ==> x in items + [item];
  }

  lemma EngineItemsSnoc(env: Env, targets: seq<string>, xs: seq<Capture>, i: nat)
    requires i < |xs|
    ensures EngineItems(env, targets, xs[..i + 1]) == EngineItems(env, targets, xs[..i]) + [EngineItem(env, targets, xs[i])]
  {
    assert xs[..i + 1][..i] == xs[..i];
  }

  function Window(a: Action): seq<Capture> {
    a.ga4 + a.pushes
  }

  predicate ConsentVerified(a: Action) {
    !a.consentRequired || a.consentGranted
  }

  function EnginePrimary(env: Env, a: Action): Resolution {
    if a.consentRequired && !ConsentVerified(a) then Resolution(ConsentUncertain, None)
    else if !a.captureComplete then Resolution(CaptureIncomplete, None)
    else
      var items := EngineItems(env, a.targets, Window(a));
      Resolve(env.read, Filter(items, IsClick()), AnyUnresolved(items))
  }

  /** The action-level status. A changed dataLayer counts as one confirmed event of its own. */
  function EngineStatus(env: Env, a: Action): CaptureStatus {
    var items := EngineItems(env, a.targets, Window(a));
    var confirmed := AnyConfirmed(items) || (a.dataLayerHasNewEntries && !a.dataLayerReplaced);
    if a.consentRequired && !ConsentVerified(a) then ConsentUnknown
    else if !a.captureComplete then Incomplete
    else if items != [] && !confirmed then CorrelationUncertain
    else if !confirmed then NoObservedTag
    else CapturedTag
  }

  /** The classification loops of the engine: one item a capture, counted as confirmed or not as it is read. */
  method ClassifyActionAnalyticsCapture(env: Env, a: Action)
      returns (items: seq<Item>, status: CaptureStatus, primary: Resolution)
    ensures items == EngineItems(env, a.targets, Window(a))
    ensures status == EngineStatus(env, a)
    ensures primary == EnginePrimary(env, a)
  {
    var window := Window(a);
    var confirmedCount, unresolvedCount := 0, 0;
    items := [];
    for i := 0 to |window|
      invariant items == EngineItems(env, a.targets, window[..i])
      invariant confirmedCount >= 0 && unresolvedCount >= 0 && confirmedCount + unresolvedCount == i
      invariant confirmedCount > 0 <==> AnyConfirmed(items)
    {
      var item := EngineItem(env, a.targets, window[i]);
      EngineItemsSnoc(env, a.targets, window, i);
      AnyConfirmedSnoc(items, item);
      items := items + [item];
      if Confirming(item.classification) {
        confirmedCount := confirmedCount + 1;
      } else {
        unresolvedCount := unresolvedCount + 1;
      }
    }
    assert window[..|window|] == window;
    if a.dataLayerHasNewEntries && !a.dataLayerReplaced {
      confirmedCount := confirmedCount + 1;
    }
    if a.consentRequired && !ConsentVerified(a) {
      primary := Resolution(ConsentUncertain, None);
    } else if !a.captureComplete {
      primary := Resolution(CaptureIncomplete, None);
    } else {
      primary := ResolveClickTag(env.read, Filter(items, IsClick()), AnyUnresolved(items));
    }
    status :=
      if a.consentRequired && !ConsentVerified(a) then ConsentUnknown
      else if !a.captureComplete then Incomplete
      else if unresolvedCount > 0 && confirmedCount == 0 then CorrelationUncertain
      else if confirmedCount == 0 && unresolvedCount == 0 then NoObservedTag
      else CapturedTag;
  }

  // ---------------------------------------------------------------- the reporting layer, logical event by logical event

  /** The canonical identity that is hashed into an event id; hashing is taken to be injective. */
  datatype EventId =
    | Ga4Id(actionId: Option<string>, meta: Meta, requestUrl: string, httpMethod: string, measurementId: Option<string>,
            params: Rec, bodies: seq<Rec>, rawBody: Option<string>, bodyIndex: Option<nat>)
    | PushId(actionId: Option<string>, meta: Meta, rawEntryIndex: nat, payload: Rec)

  datatype Entry = Entry(id: EventId, item: Item, origin: Capture)

  function Unwrapped(raw: Raw): Raw {
    if raw.List? && |raw.items| == 1 && raw.items[0].Plain? then raw.items[0] else raw
  }

  function PlainOnes(raws: seq<Raw>): seq<Rec> {
    if raws == [] then [] else (if raws[0].Plain? then [raws[0].rec] else []) + PlainOnes(raws[1..])
  }

  /** The event objects of a push: bundles are expanded one level, everything that is no object is skipped. */
  function FlattenDataLayer(raws: seq<Raw>): seq<Rec> {
    if raws == [] then []
    else
      var u := Unwrapped(raws[0]);
      (if u.List? then PlainOnes(u.items) else PlainOnes([u])) + FlattenDataLayer(raws[1..])
  }

  function PushEntries(env: Env, a: Action, x: Capture, recs: seq<Rec>): (r: seq<Entry>)
    requires x.Push?
    ensures |r| == |recs|
  {
    seq(|recs|, i requires 0 <= i < |recs| =>
      Entry(PushId(a.actionId, x.meta, i, recs[i]), MakeItem(env, ReadDataLayerFields(env, [recs[i]]), a.targets), x))
  }

  predicate SingleGa4(x: Capture) {
    x.Ga4? && (Truthy(Get(x.params, "en")) || |x.bodies| <= 1)
  }

  function Ga4Entries(env: Env, a: Action, x: Capture): (r: seq<Entry>)
    requires x.Ga4?
  {
    if SingleGa4(x) then
      [Entry(Ga4Id(a.actionId, x.meta, x.requestUrl, x.httpMethod, x.measurementId, x.params, x.bodies, x.rawBody, None),
             MakeItem(env, ReadGa4Fields(env, x.params, x.bodies), a.targets), x)]
    else
      seq(|x.bodies|, i requires 0 <= i < |x.bodies| =>
        Entry(Ga4Id(a.actionId, x.meta, x.requestUrl, x.httpMethod, x.measurementId, x.params, [x.bodies[i]], x.rawBody, Some(i)),
              MakeItem(env, ReadGa4Fields(env, x.params, [x.bodies[i]]), a.targets), x))
  }

  function EntriesOf(env: Env, a: Action, x: Capture): seq<Entry> {
    if x.Ga4? then Ga4Entries(env, a, x) else PushEntries(env, a, x, FlattenDataLayer(x.raw))
  }

  function BuildEntries(env: Env, a: Action, xs: seq<Capture>): seq<Entry> {
    if xs == [] then [] else BuildEntries(env, a, xs[..|xs| - 1]) + EntriesOf(env, a, xs[|xs| - 1])
  }

  function IdOf(): Entry -> Option<EventId> {
    (e: Entry) => Some(e.id)
  }

  function IsClickEntry(): Entry -> bool {
    (e: Entry) => e.item.classification == ClickEvent
  }

  function Items(entries: seq<Entry>): (r: seq<Item>)
    ensures |r| == |entries| && forall i :: 0 <= i < |r| ==> r[i] == entries[i].item
  {
    seq(|entries|, i requires 0 <= i < |entries| => entries[i].item)
  }

  function ReportingEntries(env: Env, a: Action): seq<Entry> {
    FirstOccurrences(BuildEntries(env, a, Window(a)), IdOf())
  }

  /** The reporting layer takes the two gates from the engine's action status and resolves everything else itself. */
  function ReportingPrimary(env: Env, a: Action): Resolution {
    var status := EngineStatus(env, a);
    if status == ConsentUnknown then Resolution(ConsentUncertain, None)
    else if status == Incomplete then Resolution(CaptureIncomplete, None)
    else
      var entries := ReportingEntries(env, a);
      Resolve(env.read, Items(Filter(entries, IsClickEntry())), AnyUnresolved(Items(entries)))
  }

  /** A click, or a change of a page, a virtual page, a form or a configurator. */
  predicate PageOrClick(c: Classification) {
    match c
    case ClickEvent => true
    case PhysicalPageChange => true
    case VirtualPageChange => true
    case FormOrConfiguratorState => true
    case OtherMeaningfulEvent => false
    case CorrelationUnresolved => false
  }

  lemma ResolvedPastGates(read: UrlReader, clicks: seq<Item>, unresolved: bool)
    ensures var status := Resolve(read, clicks, unresolved).status; status != ConsentUncertain && status != CaptureIncomplete
  {}

  /** What stops an action before its captures are judged: consent that is required and not granted, then an incomplete
      capture. */
  lemma GatesExactly(env: Env, a: Action)
    ensures var consent := a.consentRequired ==> a.consentGranted;
            && (EngineStatus(env, a) == ConsentUnknown <==> !consent)
            && (EnginePrimary(env, a).status == ConsentUncertain <==> !consent)
            && (EngineStatus(env, a) == Incomplete <==> consent && !a.captureComplete)
            && (EnginePrimary(env, a).status == CaptureIncomplete <==> consent && !a.captureComplete)
  {
    var items := EngineItems(env, a.targets, Window(a));
    ResolvedPastGates(env.read, Filter(items, IsClick()), AnyUnresolved(items));
  }

  /** The same stops the reporting rows. */
  lemma ReportingGatesExactly(env: Env, a: Action)
    ensures var consent := a.consentRequired ==> a.consentGranted;
            && (ReportingPrimary(env, a).status == ConsentUncertain <==> !consent)
            && (ReportingPrimary(env, a).status == CaptureIncomplete <==> consent && !a.captureComplete)
  {
    var entries := ReportingEntries(env, a);
    GatesExactly(env, a);
    ResolvedPastGates(env.read, Items(Filter(entries, IsClickEntry())), AnyUnresolved(Items(entries)));
  }

  /** Past them an action with captures, none of which is confirmed, is uncertain, and one without any has no tag, unless the
      page's dataLayer grew. */
  lemma UnconfirmedExactly(env: Env, a: Action)
    requires (a.consentRequired ==> a.consentGranted) && a.captureComplete && EngineStatus(env, a) != CapturedTag
    ensures EngineStatus(env, a) == CorrelationUncertain <==> a.ga4 + a.pushes != []
    ensures EngineStatus(env, a) == NoObservedTag <==> a.ga4 + a.pushes == []
  {
    assert |EngineItems(env, a.targets, Window(a))| == |a.ga4 + a.pushes|;
  }

  /** An action counts as captured exactly when its gates pass and either some item is confirmed or the page's dataLayer
      grew without being replaced; the second alone is enough. */
  lemma CapturedExactly(env: Env, a: Action)
    ensures EngineStatus(env, a) == CapturedTag <==>
              && (a.consentRequired ==> a.consentGranted) && a.captureComplete
              && ((exists x :: x in EngineItems(env, a.targets, a.ga4 + a.pushes) && PageOrClick(x.classification))
                  || (a.dataLayerHasNewEntries && !a.dataLayerReplaced))
    ensures Window(a) == [] && ConsentVerified(a) && a.captureComplete && a.dataLayerHasNewEntries && !a.dataLayerReplaced ==>
              EngineStatus(env, a) == CapturedTag && EnginePrimary(env, a).status == NoObservedClickTag
  {}
}
