/** The reporting layer's click resolution refines the engine's: dropping repeats changes nothing, and neither does reading
    event by event when every capture holds one event. */
module ClickRefinement {
  import opened Wrappers
  import opened Order
  import opened UrlRelations
  import opened Evidence
  import opened ClickResolution

  /** An entry's evidence is a function of its identity. */
  function ItemOfId(env: Env, targets: seq<string>, id: EventId): Item {
    match id
    case Ga4Id(_, _, _, _, _, params, bodies, _, _) => MakeItem(env, ReadGa4Fields(env, params, bodies), targets)
    case PushId(_, _, _, payload) => MakeItem(env, ReadDataLayerFields(env, [payload]), targets)
  }

  /** Every entry carries the evidence its identity determines, so equal identities carry equal evidence. */
  ghost predicate Derived(env: Env, targets: seq<string>, xs: seq<Entry>) {
    forall x :: x in xs ==> x.item == ItemOfId(env, targets, x.id)
  }

  lemma DedupeSnoc(front: seq<Entry>, last: Entry)
    ensures FirstOccurrences(front + [last], IdOf()) ==
              if Seen(front, last, IdOf()) then FirstOccurrences(front, IdOf()) else FirstOccurrences(front, IdOf()) + [last]
  {
    assert (front + [last])[..|front|] == front;
    assert FirstOccurrences(front, IdOf()) + [] == FirstOccurrences(front, IdOf());
  }

  /** A repeated event has an earlier twin with the same evidence. */
  lemma Twin(env: Env, targets: seq<string>, front: seq<Entry>, last: Entry) returns (k: nat)
    requires Derived(env, targets, front + [last]) && Seen(front, last, IdOf())
    ensures k < |front| && front[k].id == last.id && front[k].item == last.item
  {
    var y :| y in front && SameId(y, last, IdOf());
    k :| 0 <= k < |front| && front[k] == y;
    assert (front + [last])[k] == y && (front + [last])[|front|] == last;
  }

  lemma ItemsSnoc(xs: seq<Entry>, e: Entry)
    ensures Items(xs + [e]) == Items(xs) + [e.item]
  {}

  lemma DestinationsSnoc(items: seq<Item>, x: Item)
    ensures Destinations(items + [x]) == Destinations(items) + if Truthy(x.destination) then [x.destination.value] else []
  {
    assert (items + [x])[..|items|] == items;
  }

  lemma {:induction false} DestinationPresent(items: seq<Item>, x: Item)
    requires x in items && Truthy(x.destination)
    ensures x.destination.value in Destinations(items)
  {
    if x != items[|items| - 1] {
      DestinationPresent(items[..|items| - 1], x);
    }
  }

  /** A destination already present adds no conflict, because the relationship is symmetric and never conflicts with itself. */
  lemma RepeatAddsNoConflict(read: UrlReader, ds: seq<string>, d: string)
    requires d in ds
    ensures HasConflict(read, ds + [d]) <==> HasConflict(read, ds)
  {
    var more := ds + [d];
    if HasConflict(read, more) {
      var i, j :| 0 <= i < j < |more| && Conflict(read, more[i], more[j]);
      if j == |ds| {
        var k :| 0 <= k < |ds| && ds[k] == d;
        RelationshipSymmetric(read, Some(ds[i]), Some(d));
        assert i != k;
        if i < k {
          assert Conflict(read, ds[i], ds[k]);
        } else {
          assert Conflict(read, ds[k], ds[i]);
        }
      } else {
        assert Conflict(read, ds[i], ds[j]);
      }
    }
    if HasConflict(read, ds) {
      var i, j :| 0 <= i < j < |ds| && Conflict(read, ds[i], ds[j]);
      assert more[i] == ds[i] && more[j] == ds[j];
    }
  }

  /** Two destination lists with the same members and the same verdict on conflicts. */
  ghost predicate Agree(read: UrlReader, ds: seq<string>, es: seq<string>) {
    (HasConflict(read, ds) <==> HasConflict(read, es)) && forall d :: d in ds <==> d in es
  }

  lemma AgreeSnoc(read: UrlReader, ds: seq<string>, es: seq<string>, d: string)
    requires Agree(read, ds, es)
    ensures Agree(read, ds + [d], es + [d])
  {
    ConflictSnoc(read, ds, d);
    ConflictSnoc(read, es, d);
  }

  lemma AgreeRepeat(read: UrlReader, ds: seq<string>, es: seq<string>, d: string)
    requires Agree(read, ds, es) && d in ds
    ensures Agree(read, ds + [d], es)
  {
    RepeatAddsNoConflict(read, ds, d);
  }

  lemma ConflictSnoc(read: UrlReader, ds: seq<string>, d: string)
    ensures HasConflict(read, ds + [d]) <==> HasConflict(read, ds) || exists x :: x in ds && Conflict(read, x, d)
  {
    var more := ds + [d];
    if HasConflict(read, more) {
      var i, j :| 0 <= i < j < |more| && Conflict(read, more[i], more[j]);
      if j == |ds| {
        assert ds[i] in ds;
      } else {
        assert Conflict(read, ds[i], ds[j]);
      }
    }
    if HasConflict(read, ds) {
      var i, j :| 0 <= i < j < |ds| && Conflict(read, ds[i], ds[j]);
      assert more[i] == ds[i] && more[j] == ds[j];
    }
    if exists x :: x in ds && Conflict(read, x, d) {
      var x :| x in ds && Conflict(read, x, d);
      var i :| 0 <= i < |ds| && ds[i] == x;
      assert more[i] == x && more[|ds|] == d;
    }
  }

  function EntryDestinations(xs: seq<Entry>): seq<string> {
    Destinations(Items(xs))
  }

  lemma EntryDestinationsSnoc(xs: seq<Entry>, e: Entry)
    ensures EntryDestinations(xs + [e]) ==
              if Truthy(e.item.destination) then EntryDestinations(xs) + [e.item.destination.value] else EntryDestinations(xs)
  {
    ItemsSnoc(xs, e);
    assert EntryDestinations(xs) + [] == EntryDestinations(xs);
    DestinationsSnoc(Items(xs), e.item);
  }

  ghost predicate SameDestinations(env: Env, xs: seq<Entry>) {
    Agree(env.read, EntryDestinations(xs), EntryDestinations(FirstOccurrences(xs, IdOf())))
  }

  lemma DedupeConflictsStep(env: Env, targets: seq<string>, front: seq<Entry>, last: Entry)
    requires Derived(env, targets, front + [last]) && SameDestinations(env, front)
    ensures SameDestinations(env, front + [last])
  {
    var kept := FirstOccurrences(front, IdOf());
    DedupeSnoc(front, last);
    EntryDestinationsSnoc(front, last);
    EntryDestinationsSnoc(kept, last);
    if Truthy(last.item.destination) {
      var ds, es, d := EntryDestinations(front), EntryDestinations(kept), last.item.destination.value;
      if Seen(front, last, IdOf()) {
        var k := Twin(env, targets, front, last);
        assert Items(front)[k] in Items(front);
        DestinationPresent(Items(front), last.item);
        AgreeRepeat(env.read, ds, es, d);
      } else {
        AgreeSnoc(env.read, ds, es, d);
      }
    }
  }

  /** Dropping repeats neither adds nor removes a conflict. */
  lemma {:induction false} DedupeConflicts(env: Env, targets: seq<string>, xs: seq<Entry>)
    requires Derived(env, targets, xs)
    ensures SameDestinations(env, xs)
  {
    if xs != [] {
      var front, last := xs[..|xs| - 1], xs[|xs| - 1];
      assert xs == front + [last];
      DedupeConflicts(env, targets, front);
      DedupeConflictsStep(env, targets, front, last);
    }
  }

  function Best(xs: seq<Entry>): Entry
    requires xs != []
  {
    xs[Richest(Items(xs))]
  }

  lemma BestSnoc(xs: seq<Entry>, e: Entry)
    requires xs != []
    ensures Best(xs + [e]) == if e.item.score > Best(xs).item.score then e else Best(xs)
  {
    ItemsSnoc(xs, e);
    assert Items(xs + [e])[..|xs|] == Items(xs);
  }

  predicate SameBest(xs: seq<Entry>)
    requires xs != []
  {
    FirstOccurrences(xs, IdOf()) != [] && Best(FirstOccurrences(xs, IdOf())) == Best(xs)
  }

  lemma DedupeRichestStep(env: Env, targets: seq<string>, front: seq<Entry>, last: Entry)
    requires Derived(env, targets, front + [last])
    requires front != [] ==> SameBest(front)
    ensures SameBest(front + [last])
  {
    DedupeSnoc(front, last);
    if front == [] {
      assert front + [last] == [last];
    } else {
      BestSnoc(front, last);
      if Seen(front, last, IdOf()) {
        var k := Twin(env, targets, front, last);
        assert Items(front)[k].score <= Best(front).item.score;
      } else {
        BestSnoc(FirstOccurrences(front, IdOf()), last);
      }
    }
  }

  /** The richest record survives deduplication, with the same tie-breaking. */
  lemma {:induction false} DedupeRichest(env: Env, targets: seq<string>, xs: seq<Entry>)
    requires Derived(env, targets, xs) && xs != []
    ensures SameBest(xs)
  {
    var front, last := xs[..|xs| - 1], xs[|xs| - 1];
    assert xs == front + [last];
    if front != [] {
      DedupeRichest(env, targets, front);
    }
    DedupeRichestStep(env, targets, front, last);
  }

  lemma SeenAmongClicks(env: Env, targets: seq<string>, front: seq<Entry>, last: Entry)
    requires Derived(env, targets, front + [last]) && IsClickEntry()(last)
    ensures Seen(front, last, IdOf()) <==> Seen(Filter(front, IsClickEntry()), last, IdOf())
  {
    FilterMembers(front, IsClickEntry());
    if Seen(front, last, IdOf()) {
      var k := Twin(env, targets, front, last);
      assert front[k] in Filter(front, IsClickEntry()) && SameId(front[k], last, IdOf());
    }
  }

  predicate Commutes(xs: seq<Entry>) {
    Filter(FirstOccurrences(xs, IdOf()), IsClickEntry()) == FirstOccurrences(Filter(xs, IsClickEntry()), IdOf())
  }

  lemma FilterDedupeStep(env: Env, targets: seq<string>, front: seq<Entry>, last: Entry)
    requires Derived(env, targets, front + [last]) && Commutes(front)
    ensures Commutes(front + [last])
  {
    DedupeSnoc(front, last);
    FilterSnoc(front, last, IsClickEntry());
    FilterSnoc(FirstOccurrences(front, IdOf()), last, IsClickEntry());
    if IsClickEntry()(last) {
      SeenAmongClicks(env, targets, front, last);
      DedupeSnoc(Filter(front, IsClickEntry()), last);
    }
  }

  /** Filtering clicks and deduplicating commute, because equal identities are classified alike. */
  lemma {:induction false} FilterDedupe(env: Env, targets: seq<string>, xs: seq<Entry>)
    requires Derived(env, targets, xs)
    ensures Commutes(xs)
  {
    if xs != [] {
      var front, last := xs[..|xs| - 1], xs[|xs| - 1];
      assert xs == front + [last];
      FilterDedupe(env, targets, front);
      FilterDedupeStep(env, targets, front, last);
    }
  }

  lemma {:induction false} FilterItems(xs: seq<Entry>)
    ensures Items(Filter(xs, IsClickEntry())) == Filter(Items(xs), IsClick())
  {
    if xs != [] {
      FilterItems(xs[1..]);
      assert Items(xs)[1..] == Items(xs[1..]);
    }
  }

  lemma UnresolvedEntry(xs: seq<Entry>)
    ensures AnyUnresolved(Items(xs)) <==> exists e :: e in xs && e.item.classification == CorrelationUnresolved
  {
    if AnyUnresolved(Items(xs)) {
      var i :| 0 <= i < |xs| && Items(xs)[i].classification == CorrelationUnresolved;
      assert xs[i] in xs;
    }
    if exists e :: e in xs && e.item.classification == CorrelationUnresolved {
      var i :| 0 <= i < |xs| && xs[i].item.classification == CorrelationUnresolved;
      assert Items(xs)[i] in Items(xs);
    }
  }

  lemma DedupeUnresolved(env: Env, targets: seq<string>, xs: seq<Entry>)
    requires Derived(env, targets, xs)
    ensures AnyUnresolved(Items(FirstOccurrences(xs, IdOf()))) <==> AnyUnresolved(Items(xs))
  {
    var kept := FirstOccurrences(xs, IdOf());
    FirstOccurrencesHold(xs, IdOf());
    UnresolvedEntry(xs);
    UnresolvedEntry(kept);
    if e :| e in xs && e.item.classification == CorrelationUnresolved {
      var y :| y in kept && SameId(y, e, IdOf());
      assert y in xs && y.id == e.id;
    }
  }

  /** The same status, and the same primary entry or none; each primary is a place in its own list. */
  predicate SameResolution(x: Resolution, all: seq<Entry>, y: Resolution, kept: seq<Entry>) {
    && x.status == y.status
    && (x.primary.Some? <==> y.primary.Some?)
    && (x.primary.Some? ==>
          x.primary.value < |all| && y.primary.value < |kept| && all[x.primary.value] == kept[y.primary.value])
  }

  /** Resolution gives the same status and the same record whether or not repeated events were dropped first. */
  lemma ResolveAfterDedupe(env: Env, targets: seq<string>, xs: seq<Entry>)
    requires Derived(env, targets, xs)
    ensures var kept := FirstOccurrences(xs, IdOf());
            SameResolution(
              Resolve(env.read, Filter(Items(xs), IsClick()), AnyUnresolved(Items(xs))), Filter(xs, IsClickEntry()),
              Resolve(env.read, Items(Filter(kept, IsClickEntry())), AnyUnresolved(Items(kept))), Filter(kept, IsClickEntry()))
  {
    var clicks := Filter(xs, IsClickEntry());
    FilterItems(xs);
    FilterDedupe(env, targets, xs);
    FilterMembers(xs, IsClickEntry());
    DedupeUnresolved(env, targets, xs);
    DedupeConflicts(env, targets, clicks);
    if clicks != [] {
      DedupeRichest(env, targets, clicks);
    }
  }

  // ---------------------------------------------------------------- the refinement

  /** One capture, one event: a push of one plain object, a GA4 request that is not split. */
  predicate SingleEvent(x: Capture) {
    if x.Ga4? then SingleGa4(x) else |x.raw| == 1 && x.raw[0].Plain?
  }

  lemma SingleEntry(env: Env, a: Action, x: Capture)
    requires SingleEvent(x)
    ensures var es := EntriesOf(env, a, x);
            |es| == 1 && es[0].item == EngineItem(env, a.targets, x) && es[0].origin == x
  {
    if x.Push? {
      var raw := x.raw[0];
      assert x.raw[1..] == [] && [raw][1..] == [];
      assert PlainOnes([raw]) == [raw.rec];
      assert FlattenDataLayer(x.raw) == [raw.rec];
      assert AsRecs(x.raw) == [raw.rec];
    }
  }

  /** Entry by entry, the reporting layer reads what the engine read. */
  ghost predicate OneToOne(env: Env, a: Action, xs: seq<Capture>) {
    var es := BuildEntries(env, a, xs);
    |es| == |xs| && forall i :: 0 <= i < |es| ==> es[i].item == EngineItem(env, a.targets, xs[i]) && es[i].origin == xs[i]
  }

  lemma SingleEntriesStep(env: Env, a: Action, front: seq<Capture>, last: Capture)
    requires OneToOne(env, a, front) && SingleEvent(last)
    ensures OneToOne(env, a, front + [last])
  {
    var xs := front + [last];
    assert xs[..|front|] == front && xs[|front|] == last;
    SingleEntry(env, a, last);
    assert BuildEntries(env, a, xs) == BuildEntries(env, a, front) + EntriesOf(env, a, last);
  }

  lemma {:induction false} SingleEntries(env: Env, a: Action, xs: seq<Capture>)
    requires forall x :: x in xs ==> SingleEvent(x)
    ensures OneToOne(env, a, xs)
  {
    if xs != [] {
      var front, last := xs[..|xs| - 1], xs[|xs| - 1];
      assert xs == front + [last];
      SingleEntries(env, a, front);
      SingleEntriesStep(env, a, front, last);
    }
  }

  lemma {:induction false} EntriesDerived(env: Env, a: Action, xs: seq<Capture>)
    ensures Derived(env, a.targets, BuildEntries(env, a, xs))
  {
    if xs != [] {
      EntriesDerived(env, a, xs[..|xs| - 1]);
    }
  }

  /** Then the reporting layer reads the engine's items, in the engine's order. */
  lemma EntriesMatchItems(env: Env, a: Action)
    requires forall x :: x in Window(a) ==> SingleEvent(x)
    ensures var es := BuildEntries(env, a, Window(a));
            && Items(es) == EngineItems(env, a.targets, Window(a)) && |es| == |Window(a)|
            && forall i :: 0 <= i < |es| ==> es[i].origin == Window(a)[i]
  {
    SingleEntries(env, a, Window(a));
  }

  /** When every capture in the window holds one event, the reporting layer reports the engine's status, and its primary
      record is the very entry of the engine's primary capture. */
  lemma ReportingRefinesEngine(env: Env, a: Action)
    requires forall x :: x in Window(a) ==> SingleEvent(x)
    ensures SameResolution(
              EnginePrimary(env, a), Filter(BuildEntries(env, a, Window(a)), IsClickEntry()),
              ReportingPrimary(env, a), Filter(ReportingEntries(env, a), IsClickEntry()))
  {
    EntriesMatchItems(env, a);
    EntriesDerived(env, a, Window(a));
    ResolveAfterDedupe(env, a.targets, BuildEntries(env, a, Window(a)));
    GatesAlike(env, a);
  }

  /** Both layers stop at the same gates and otherwise resolve the clicks they have read. */
  lemma GatesAlike(env: Env, a: Action)
    ensures var items, kept := EngineItems(env, a.targets, Window(a)), ReportingEntries(env, a);
            || (EnginePrimary(env, a) == ReportingPrimary(env, a) && EnginePrimary(env, a).primary.None?)
            || (&& EnginePrimary(env, a) == Resolve(env.read, Filter(items, IsClick()), AnyUnresolved(items))
                && ReportingPrimary(env, a) == Resolve(env.read, Items(Filter(kept, IsClickEntry())), AnyUnresolved(Items(kept))))
  {}

  /** Without that condition the two can differ: the engine sees one ambiguous record in a push that holds no object,
      the reporting layer sees nothing. */
  lemma EmptyPushDiffers(env: Env, a: Action)
    requires a.ga4 == [] && |a.pushes| == 1 && a.pushes[0].Push? && a.pushes[0].raw == []
    requires !a.consentRequired && a.captureComplete
    ensures EnginePrimary(env, a).status == Unresolved && ReportingPrimary(env, a).status == NoObservedClickTag
  {
    var x := a.pushes[0];
    assert Window(a) == [x] && [x][..0] == [];
    assert EntriesOf(env, a, x) == [];
    assert BuildEntries(env, a, [x]) == [];
    assert AsRecs(x.raw) == [];
    var items := EngineItems(env, a.targets, [x]);
    assert items[0].classification == CorrelationUnresolved;
    assert items[1..] == [] && items[0] in items;
    assert Filter(items, IsClick()) == [];
  }
}
