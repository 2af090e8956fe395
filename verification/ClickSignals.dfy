/** What makes a capture a click, read off its records, and when an action's click is captured. */
module ClickSignals {
  import opened Wrappers
  import opened Order
  import opened UrlRelations
  import opened Evidence
  import opened ClickResolution
  import opened ClickRefinement
  import opened LogicalEvents

  // ---------------------------------------------------------------- the six classes over the fields

  predicate InteractionName(env: Env, name: string) {
    var n := env.lower(name);
    name != "" && (n == "click" || n == "outbound_click" || n == "gtm.linkclick" || n == "gtm.formsubmit" || n == "gtm.click")
  }

  /** A sign of a click of its own: a destination, an identifier or the text of the clicked element, or an interaction's name. */
  predicate ShowsClick(env: Env, f: Fields) {
    || (f.destination.Some? && f.destination.value != "")
    || f.ctaIdentifier || f.ctaLabel
    || (f.eventName.Some? && InteractionName(env, f.eventName.value))
  }

  predicate NamesPage(m: VirtualMeta) {
    || (m.virtualPageUrl.Some? && m.virtualPageUrl.value != "")
    || (m.pageName.Some? && m.pageName.value != "")
    || (m.pageCategory.Some? && m.pageCategory.value != "")
  }

  function LocationOf(f: Fields): string {
    if f.location.Some? then f.location.value else if f.fullUrl.Some? then f.fullUrl.value else ""
  }

  predicate Named(f: Fields) {
    f.eventName.Some? && f.eventName.value != ""
  }

  /** The event has a name, and not a page view's. */
  predicate NamedApart(env: Env, f: Fields) {
    Named(f) && env.lower(f.eventName.value) != "page_view" && env.lower(f.eventName.value) != "pageview"
  }

  /** No target is known, or some target is not a different destination. */
  ghost predicate MayBeHere(env: Env, location: string, targets: seq<string>) {
    (forall t :: t in targets ==> t == "")
    || exists t :: t in targets && t != ""
         && ComputeUrlRelationship(env.read, Some(location), Some(t)) != DifferentDestination
  }

  lemma BestMayBeHere(env: Env, location: string, targets: seq<string>)
    requires location != ""
    ensures BestRelationship(env.read, Some(location), targets) != DifferentDestination <==> MayBeHere(env, location, targets)
  {
    if targets != [] {
      BestIsMostSpecific(env.read, Some(location), targets);
      assert targets[0] in targets;
    }
  }

  /** Virtual state comes first, told from form and configurator state by a URL, page name or page category; then a click. */
  lemma StateOrClickExactly(env: Env, f: Fields, targets: seq<string>)
    ensures var kind := ClassifyEvidenceItem(env, f, targets);
            && (kind == VirtualPageChange <==> f.virtualMeta.Some? && NamesPage(f.virtualMeta.value))
            && (kind == FormOrConfiguratorState <==> f.virtualMeta.Some? && !NamesPage(f.virtualMeta.value))
            && (kind == ClickEvent <==> f.virtualMeta.None? && ShowsClick(env, f))
  {}

  /** Of the rest, an event with a name of its own is one of its own; a place that may be here is a page change; what has neither
      a name nor a place, or a place elsewhere, is left unresolved. */
  lemma PlainExactly(env: Env, f: Fields, targets: seq<string>)
    requires f.virtualMeta.None? && !ShowsClick(env, f)
    ensures var kind := ClassifyEvidenceItem(env, f, targets);
            var here := LocationOf(f) != "" && MayBeHere(env, LocationOf(f), targets);
            && (kind == PhysicalPageChange <==> here && !NamedApart(env, f))
            && (kind == OtherMeaningfulEvent <==> NamedApart(env, f) || (Named(f) && LocationOf(f) == ""))
            && (kind == CorrelationUnresolved <==>
                  !NamedApart(env, f) && if LocationOf(f) == "" then !Named(f) else !here)
  {
    if LocationOf(f) != "" {
      BestMayBeHere(env, LocationOf(f), targets);
    }
  }

  /** A tag manager's own event: its name begins with `gtm.`, in any case. */
  predicate AutoEvent(env: Env, f: Fields) {
    Named(f) && var n := env.lower(f.eventName.value); |n| >= 4 && n[0] == 'g' && n[1] == 't' && n[2] == 'm' && n[3] == '.'
  }

  datatype Detail = ItsCategory | ItsAction | ItsLabel | ItsIdentifier | ItsDestination

  predicate Has(f: Fields, d: Detail) {
    match d
    case ItsCategory => f.category.Some? && f.category.value != ""
    case ItsAction => f.action.Some? && f.action.value != ""
    case ItsLabel => f.ctaLabel
    case ItsIdentifier => f.ctaIdentifier
    case ItsDestination => f.destination.Some? && f.destination.value != ""
  }

  /** The details a record has, each counted once. */
  function Details(f: Fields): nat {
    |(if Has(f, ItsCategory) then [ItsCategory] else []) + (if Has(f, ItsAction) then [ItsAction] else [])
     + (if Has(f, ItsLabel) then [ItsLabel] else []) + (if Has(f, ItsIdentifier) then [ItsIdentifier] else [])
     + (if Has(f, ItsDestination) then [ItsDestination] else [])|
  }

  /** A record that is not a tag manager's own event is richer than one that is, whatever details either has; of two alike in
      that, the one with more details is. */
  ghost predicate Richer(env: Env, f: Fields, g: Fields) {
    (!AutoEvent(env, f) && AutoEvent(env, g)) || ((AutoEvent(env, f) <==> AutoEvent(env, g)) && Details(f) > Details(g))
  }

  lemma RicherExactly(env: Env, f: Fields, g: Fields)
    ensures ClickRichnessScore(env, f) > ClickRichnessScore(env, g) <==> Richer(env, f, g)
  {
    ScoreIs(env, f);
    ScoreIs(env, g);
  }

  lemma ScoreIs(env: Env, f: Fields)
    ensures ClickRichnessScore(env, f) == Details(f) + if AutoEvent(env, f) then 0 else 10
    ensures Details(f) <= 5
  {
    if Named(f) {
      var n := env.lower(f.eventName.value);
      if |n| >= 4 {
        assert n[..4] == [n[0], n[1], n[2], n[3]];
      }
    }
  }

  // ---------------------------------------------------------------- what the records hold

  predicate Blank(rec: Rec, key: string) {
    key in rec ==> rec[key] == ""
  }

  /** `d` is the text under the first of the keys that holds one. */
  ghost predicate ReadsFirst(rec: Rec, keys: seq<string>, d: string) {
    exists j :: 0 <= j < |keys| && !Blank(rec, keys[j]) && rec[keys[j]] == d && forall i :: 0 <= i < j ==> Blank(rec, keys[i])
  }

  ghost predicate AllBlank(rec: Rec, keys: seq<string>) {
    forall k :: k in keys ==> Blank(rec, k)
  }

  lemma {:induction false} FieldExactly(rec: Rec, keys: seq<string>, d: string)
    ensures ReadStringField(rec, keys) == Some(d) <==> ReadsFirst(rec, keys, d)
    ensures ReadStringField(rec, keys).None? <==> AllBlank(rec, keys)
  {
    if keys != [] {
      FieldExactly(rec, keys[1..], d);
      if Blank(rec, keys[0]) {
        FirstIsLater(rec, keys, d);
      }
    }
  }

  lemma FirstIsLater(rec: Rec, keys: seq<string>, d: string)
    requires keys != [] && Blank(rec, keys[0])
    ensures ReadsFirst(rec, keys, d) <==> ReadsFirst(rec, keys[1..], d)
    ensures AllBlank(rec, keys) <==> AllBlank(rec, keys[1..])
  {
    if ReadsFirst(rec, keys, d) {
      var j :| 0 <= j < |keys| && !Blank(rec, keys[j]) && rec[keys[j]] == d && forall i :: 0 <= i < j ==> Blank(rec, keys[i]);
      assert keys[1..][j - 1] == keys[j];
      forall i | 0 <= i < j - 1
        ensures Blank(rec, keys[1..][i])
      {
        assert keys[1..][i] == keys[i + 1];
      }
    }
    if ReadsFirst(rec, keys[1..], d) {
      var j :| 0 <= j < |keys[1..]| && !Blank(rec, keys[1..][j]) && rec[keys[1..][j]] == d
          && forall i :: 0 <= i < j ==> Blank(rec, keys[1..][i]);
      assert keys[j + 1] == keys[1..][j];
      forall i | 0 <= i < j + 1
        ensures Blank(rec, keys[i])
      {
        if i > 0 {
          assert keys[i] == keys[1..][i - 1];
        }
      }
    }
  }

  /** `d` is what the first record that holds anything under the keys holds under the first of them. */
  ghost predicate FirstHeld(recs: seq<Rec>, keys: seq<string>, d: string) {
    exists i :: 0 <= i < |recs| && ReadsFirst(recs[i], keys, d) && forall h :: 0 <= h < i ==> AllBlank(recs[h], keys)
  }

  ghost predicate NoneHeld(recs: seq<Rec>, keys: seq<string>) {
    forall r :: r in recs ==> AllBlank(r, keys)
  }

  lemma {:induction false} FirstOfExactly(recs: seq<Rec>, keys: seq<string>, d: string)
    ensures FirstOf(recs, Field(keys)) == Some(d) <==> FirstHeld(recs, keys, d)
    ensures FirstOf(recs, Field(keys)).None? <==> NoneHeld(recs, keys)
  {
    if recs != [] {
      FieldExactly(recs[0], keys, d);
      FirstOfExactly(recs[1..], keys, d);
      if AllBlank(recs[0], keys) {
        HeldLater(recs, keys, d);
      } else if FirstHeld(recs, keys, d) {
        assert ReadsFirst(recs[0], keys, d);
      }
    }
  }

  lemma HeldLater(recs: seq<Rec>, keys: seq<string>, d: string)
    requires recs != [] && AllBlank(recs[0], keys)
    ensures FirstHeld(recs, keys, d) <==> FirstHeld(recs[1..], keys, d)
    ensures NoneHeld(recs, keys) <==> NoneHeld(recs[1..], keys)
  {
    if FirstHeld(recs, keys, d) {
      var i :| 0 <= i < |recs| && ReadsFirst(recs[i], keys, d) && forall h :: 0 <= h < i ==> AllBlank(recs[h], keys);
      assert recs[1..][i - 1] == recs[i];
      forall h | 0 <= h < i - 1
        ensures AllBlank(recs[1..][h], keys)
      {
        assert recs[1..][h] == recs[h + 1];
      }
    }
    if FirstHeld(recs[1..], keys, d) {
      var i :| 0 <= i < |recs[1..]| && ReadsFirst(recs[1..][i], keys, d)
          && forall h :: 0 <= h < i ==> AllBlank(recs[1..][h], keys);
      assert recs[i + 1] == recs[1..][i];
      forall h | 0 <= h < i + 1
        ensures AllBlank(recs[h], keys)
      {
        if h > 0 {
          assert recs[h] == recs[1..][h - 1];
        }
      }
    }
  }

  lemma {:induction false} AnyOfExactly(recs: seq<Rec>, p: Rec -> bool)
    ensures AnyOf(recs, p) <==> exists r :: r in recs && p(r)
  {
    if recs != [] {
      AnyOfExactly(recs[1..], p);
    }
  }

  lemma {:induction false} FirstOfNone<T>(recs: seq<Rec>, f: Rec -> Option<T>)
    ensures FirstOf(recs, f).None? <==> forall r :: r in recs ==> f(r).None?
  {
    if recs != [] {
      FirstOfNone(recs[1..], f);
    }
  }

  // ---------------------------------------------------------------- a capture's signals

  /** A GA4 request is its parameters and its bodies; of a push, what is no object holds nothing. */
  function RecordsOf(x: Capture): seq<Rec> {
    match x
    case Ga4(_, _, _, _, params, bodies, _) => [params] + bodies
    case Push(_, _, raw) => seq(|raw|, i requires 0 <= i < |raw| => if raw[i].Plain? then raw[i].rec else map[])
  }

  ghost predicate NoVirtualState(recs: seq<Rec>) {
    && NoneHeld(recs, ["virtualpage_url", "virtualPageUrl", "virtualPagePath", "page_name", "pageName", "page_category",
        "pageCategory", "form_name", "formName", "step_name", "stepName"])
    && forall r :: r in recs ==> "step_number" !in r && "stepNumber" !in r
  }

  ghost predicate DestinationIs(x: Capture, d: string) {
    FirstHeld(RecordsOf(x),
              if x.Ga4? then ["link_url"]
              else ["link_url", "linkUrl", "destination_url", "destinationUrl", "click_url", "clickUrl", "outbound_url",
                  "eventDestinationUrl", "event_destination_url", "gtm.elementUrl"], d)
  }

  /** A request's own name counts even when it is empty; otherwise the first of its bodies that has one names it. */
  ghost predicate NameIs(x: Capture, name: string) {
    match x
    case Ga4(_, _, _, _, params, bodies, _) =>
      if "en" in params then name == params["en"] else FirstHeld(bodies, ["en"], name)
    case Push(_, _, _) => FirstHeld(RecordsOf(x), ["event"], name)
  }

  ghost predicate Within(part: string, whole: string) {
    exists before: string, after: string :: whole == before + part + after
  }

  ghost predicate IsOwnText(env: Env, text: string) {
    env.normalize(text) != ""
    && exists own :: own in env.labels && own != "" && env.normalize(own) != ""
         && (Within(env.normalize(own), env.normalize(text)) || Within(env.normalize(text), env.normalize(own)))
  }

  ghost predicate HoldsOwnText(env: Env, rec: Rec) {
    exists text :: IsOwnText(env, text)
      && ReadsFirst(rec, ["ctaText", "cta_text", "link_text", "linkText", "label", "button_text", "buttonText", "eventLabel",
          "event_label", "gtm.elementText"], text)
  }

  /** The capture tells of no virtual state, and has a destination, an identifier or the text of the clicked element, or an
      interaction's name. */
  ghost predicate Signals(env: Env, x: Capture) {
    && NoVirtualState(RecordsOf(x))
    && (|| (exists d :: DestinationIs(x, d))
        || !NoneHeld(RecordsOf(x), ["cta", "cta_id", "ctaId", "link_id", "linkId", "link_classes", "linkClasses", "element_id",
            "elementId"])
        || (exists r :: r in RecordsOf(x) && HoldsOwnText(env, r))
        || (exists name :: NameIs(x, name) && InteractionName(env, name)))
  }

  lemma RecordsRead(x: Capture)
    ensures x.Push? ==> AsRecs(x.raw) == RecordsOf(x)
  {}

  lemma AllBlankConcat(rec: Rec, a: seq<string>, b: seq<string>)
    ensures AllBlank(rec, a + b) <==> AllBlank(rec, a) && AllBlank(rec, b)
  {
    forall k | k in a || k in b
      ensures k in a + b
    {}
  }

  /** Every name that may tell of virtual state, in one list. */
  function VirtualNames(): seq<string> {
    VIRTUAL_URL_KEYS + (PAGE_NAME_KEYS + (PAGE_CATEGORY_KEYS + (FORM_NAME_KEYS + STEP_NAME_KEYS)))
  }

  lemma VirtualNamesAre()
    ensures VirtualNames() == ["virtualpage_url", "virtualPageUrl", "virtualPagePath", "page_name", "pageName", "page_category",
                "pageCategory", "form_name", "formName", "step_name", "stepName"]
  {}

  lemma VirtualMetaExactly(rec: Rec)
    ensures ExtractVirtualMeta(rec).None? <==>
              AllBlank(rec, VirtualNames()) && "step_number" !in rec && "stepNumber" !in rec
  {
    FieldExactly(rec, VIRTUAL_URL_KEYS, "");
    FieldExactly(rec, PAGE_NAME_KEYS, "");
    FieldExactly(rec, PAGE_CATEGORY_KEYS, "");
    FieldExactly(rec, FORM_NAME_KEYS, "");
    FieldExactly(rec, STEP_NAME_KEYS, "");
    AllBlankConcat(rec, FORM_NAME_KEYS, STEP_NAME_KEYS);
    AllBlankConcat(rec, PAGE_CATEGORY_KEYS, FORM_NAME_KEYS + STEP_NAME_KEYS);
    AllBlankConcat(rec, PAGE_NAME_KEYS, PAGE_CATEGORY_KEYS + (FORM_NAME_KEYS + STEP_NAME_KEYS));
    AllBlankConcat(rec, VIRTUAL_URL_KEYS, PAGE_NAME_KEYS + (PAGE_CATEGORY_KEYS + (FORM_NAME_KEYS + STEP_NAME_KEYS)));
  }

  lemma VirtualStateExactly(recs: seq<Rec>)
    ensures FirstOf(recs, (rec: Rec) => ExtractVirtualMeta(rec)).None? <==>
              NoneHeld(recs, VirtualNames()) && forall r :: r in recs ==> "step_number" !in r && "stepNumber" !in r
  {
    var f := (rec: Rec) => ExtractVirtualMeta(rec);
    FirstOfNone(recs, f);
    forall r | r in recs
      ensures f(r).None? <==> AllBlank(r, VirtualNames()) && "step_number" !in r && "stepNumber" !in r
    {
      VirtualMetaExactly(r);
    }
  }

  lemma WithinExactly(part: string, whole: string)
    ensures Includes(whole, part) <==> Within(part, whole)
  {
    if Includes(whole, part) {
      var i :| 0 <= i <= |whole| - |part| && whole[i..][..|part|] == part;
      assert whole == whole[..i] + part + whole[i + |part|..];
    }
    if Within(part, whole) {
      var before: string, after: string :| whole == before + part + after;
      assert whole[|before|..][..|part|] == part;
    }
  }

  lemma OwnTextExactly(env: Env, rec: Rec)
    ensures LabelMatches(env, rec) <==> HoldsOwnText(env, rec)
  {
    var text := ReadStringField(rec, CTA_TEXT_KEYS);
    FieldExactly(rec, CTA_TEXT_KEYS, if text.Some? then text.value else "");
    if text.Some? {
      TextExactly(env, text.value);
    }
    if HoldsOwnText(env, rec) {
      var t :| IsOwnText(env, t) && ReadsFirst(rec, CTA_TEXT_KEYS, t);
      FieldExactly(rec, CTA_TEXT_KEYS, t);
    }
  }

  lemma TextExactly(env: Env, text: string)
    ensures IsOwnText(env, text) <==>
              var candidate := env.normalize(text);
              candidate != "" &&
              exists own :: own in env.labels && own != "" && env.normalize(own) != ""
                              && (Includes(candidate, env.normalize(own)) || Includes(env.normalize(own), candidate))
  {
    forall own | own in env.labels
      ensures Includes(env.normalize(text), env.normalize(own)) <==> Within(env.normalize(own), env.normalize(text))
      ensures Includes(env.normalize(own), env.normalize(text)) <==> Within(env.normalize(text), env.normalize(own))
    {
      WithinExactly(env.normalize(own), env.normalize(text));
      WithinExactly(env.normalize(text), env.normalize(own));
    }
  }

  lemma IdentifierExactly(recs: seq<Rec>)
    ensures AnyOf(recs, (rec: Rec) => ReadStringField(rec, CTA_IDENTIFIER_KEYS).Some?) <==> !NoneHeld(recs, CTA_IDENTIFIER_KEYS)
  {
    var p := (rec: Rec) => ReadStringField(rec, CTA_IDENTIFIER_KEYS).Some?;
    AnyOfExactly(recs, p);
    forall r | r in recs
      ensures p(r) <==> !AllBlank(r, CTA_IDENTIFIER_KEYS)
    {
      FieldExactly(r, CTA_IDENTIFIER_KEYS, "");
    }
  }

  lemma OwnTextsExactly(env: Env, recs: seq<Rec>)
    ensures AnyOf(recs, (rec: Rec) => LabelMatches(env, rec)) <==> exists r :: r in recs && HoldsOwnText(env, r)
  {
    var p := (rec: Rec) => LabelMatches(env, rec);
    AnyOfExactly(recs, p);
    forall r | r in recs
      ensures p(r) <==> HoldsOwnText(env, r)
    {
      OwnTextExactly(env, r);
    }
  }

  lemma DestinationExactly(env: Env, x: Capture, d: string)
    ensures CaptureFields(env, x).destination == Some(d) <==> DestinationIs(x, d)
    ensures DestinationIs(x, d) ==> d != ""
  {
    RecordsRead(x);
    FirstOfExactly(RecordsOf(x), if x.Ga4? then ["link_url"] else DESTINATION_KEYS, d);
  }

  lemma NameExactly(env: Env, x: Capture, name: string)
    ensures CaptureFields(env, x).eventName == Some(name) <==> NameIs(x, name)
  {
    RecordsRead(x);
    if x.Ga4? {
      FirstOfExactly(x.bodies, ["en"], name);
    } else {
      FirstOfExactly(RecordsOf(x), ["event"], name);
    }
  }

  /** Where the capture says it was made, and of what kind it is. */
  lemma PlaceExactly(env: Env, x: Capture, d: string)
    ensures var f, recs := CaptureFields(env, x), RecordsOf(x);
            && (f.location == Some(d) <==> FirstHeld(recs, if x.Ga4? then ["dl"] else ["page_location", "pageLocation"], d))
            && (f.fullUrl == Some(d) <==> x.Push? && FirstHeld(recs, ["full_url", "fullUrl", "page_full_url"], d))
            && (f.category == Some(d) <==> FirstHeld(recs, ["eventCategory", "event_category"], d))
            && (f.action == Some(d) <==> FirstHeld(recs, ["eventAction", "event_action"], d))
  {
    RecordsRead(x);
    FirstOfExactly(RecordsOf(x), if x.Ga4? then ["dl"] else PAGE_LOCATION_KEYS, d);
    FirstOfExactly(RecordsOf(x), FULL_URL_KEYS, d);
    FirstOfExactly(RecordsOf(x), EVENT_CATEGORY_KEYS, d);
    FirstOfExactly(RecordsOf(x), EVENT_ACTION_KEYS, d);
  }

  lemma NoVirtualExactly(env: Env, x: Capture)
    ensures CaptureFields(env, x).virtualMeta.None? <==> NoVirtualState(RecordsOf(x))
  {
    RecordsRead(x);
    VirtualStateExactly(RecordsOf(x));
    VirtualNamesAre();
  }

  lemma IdentifierRead(env: Env, x: Capture)
    ensures CaptureFields(env, x).ctaIdentifier <==> !NoneHeld(RecordsOf(x), CTA_IDENTIFIER_KEYS)
    ensures CaptureFields(env, x).ctaLabel <==> exists r :: r in RecordsOf(x) && HoldsOwnText(env, r)
  {
    RecordsRead(x);
    IdentifierExactly(RecordsOf(x));
    OwnTextsExactly(env, RecordsOf(x));
  }

  /** A capture is classified as a click if and only if its records carry a sign of one. */
  lemma SignalledExactly(env: Env, targets: seq<string>, x: Capture)
    ensures EngineItem(env, targets, x).classification == ClickEvent <==> Signals(env, x)
  {
    var f := CaptureFields(env, x);
    StateOrClickExactly(env, f, targets);
    NoVirtualExactly(env, x);
    IdentifierRead(env, x);
    DestinationShown(env, x);
    NameShown(env, x);
  }

  lemma DestinationShown(env: Env, x: Capture)
    ensures var f := CaptureFields(env, x);
            (f.destination.Some? && f.destination.value != "") <==> exists d :: DestinationIs(x, d)
  {
    var f := CaptureFields(env, x);
    if f.destination.Some? {
      DestinationExactly(env, x, f.destination.value);
    }
    if d :| DestinationIs(x, d) {
      DestinationExactly(env, x, d);
    }
  }

  lemma NameShown(env: Env, x: Capture)
    ensures var f := CaptureFields(env, x);
            (f.eventName.Some? && InteractionName(env, f.eventName.value)) <==>
              exists name :: NameIs(x, name) && InteractionName(env, name)
  {
    var f := CaptureFields(env, x);
    if f.eventName.Some? {
      NameExactly(env, x, f.eventName.value);
    }
    if name :| NameIs(x, name) && InteractionName(env, name) {
      NameExactly(env, x, name);
    }
  }

  // ---------------------------------------------------------------- when the click is captured

  ghost predicate ItemsConflict(read: UrlReader, items: seq<Item>) {
    exists p, q :: p in items && q in items && p.classification == ClickEvent && q.classification == ClickEvent
      && ComputeUrlRelationship(read, p.destination, q.destination) == DifferentDestination
  }

  lemma {:induction false} DestinationNamed(items: seq<Item>, d: string)
    requires d in Destinations(items)
    ensures d != "" && exists p :: p in items && p.destination == Some(d)
  {
    var front, last := items[..|items| - 1], items[|items| - 1];
    if d in Destinations(front) {
      DestinationNamed(front, d);
      var p :| p in front && p.destination == Some(d);
      assert p in items;
    } else {
      assert last in items && last.destination == Some(d);
    }
  }

  lemma PairConflicts(read: UrlReader, ds: seq<string>, d: string, e: string)
    requires d in ds && e in ds && Conflict(read, d, e)
    ensures HasConflict(read, ds)
  {
    var i :| 0 <= i < |ds| && ds[i] == d;
    var j :| 0 <= j < |ds| && ds[j] == e;
    RelationshipSymmetric(read, Some(d), Some(e));
    if i < j {
      assert Conflict(read, ds[i], ds[j]);
    } else {
      assert Conflict(read, ds[j], ds[i]);
    }
  }

  lemma ConflictsExactly(read: UrlReader, items: seq<Item>)
    ensures HasConflict(read, Destinations(Filter(items, IsClick()))) <==> ItemsConflict(read, items)
  {
    var clicks := Filter(items, IsClick());
    FilterMembers(items, IsClick());
    var ds := Destinations(clicks);
    if HasConflict(read, ds) {
      var i, j :| 0 <= i < j < |ds| && Conflict(read, ds[i], ds[j]);
      DestinationNamed(clicks, ds[i]);
      DestinationNamed(clicks, ds[j]);
      var p :| p in clicks && p.destination == Some(ds[i]);
      var q :| q in clicks && q.destination == Some(ds[j]);
      assert p in items && q in items;
    }
    if ItemsConflict(read, items) {
      var p, q :| p in items && q in items && p.classification == ClickEvent && q.classification == ClickEvent
          && ComputeUrlRelationship(read, p.destination, q.destination) == DifferentDestination;
      DestinationPresent(clicks, p);
      DestinationPresent(clicks, q);
      PairConflicts(read, ds, p.destination.value, q.destination.value);
    }
  }

  /** Resolution over all the items read: captured when there is a click and no two clicks are in conflict; unresolved when two
      are, or there is none and some item is unresolved. */
  lemma ResolvedExactly(read: UrlReader, items: seq<Item>)
    ensures var r := Resolve(read, Filter(items, IsClick()), AnyUnresolved(items));
            var some := exists p :: p in items && p.classification == ClickEvent;
            && (r.status == Captured <==> some && !ItemsConflict(read, items))
            && (r.status == Unresolved <==>
                  ItemsConflict(read, items)
                  || (!some && exists p :: p in items && p.classification == CorrelationUnresolved))
            && (r.status == NoObservedClickTag <==>
                  !some && !exists p :: p in items && p.classification == CorrelationUnresolved)
  {
    FilterMembers(items, IsClick());
    ConflictsExactly(read, items);
    var clicks := Filter(items, IsClick());
    if clicks != [] {
      assert clicks[0] in clicks;
    }
  }

  /** Two captures name destinations that are different destinations. */
  ghost predicate Conflicting(env: Env, x: Capture, y: Capture) {
    exists d, e :: DestinationIs(x, d) && DestinationIs(y, e)
      && ComputeUrlRelationship(env.read, Some(d), Some(e)) == DifferentDestination
  }

  lemma ConflictingExactly(env: Env, targets: seq<string>, x: Capture, y: Capture)
    ensures Conflicting(env, x, y) <==>
              ComputeUrlRelationship(env.read, EngineItem(env, targets, x).destination, EngineItem(env, targets, y).destination)
              == DifferentDestination
  {
    var p, q := CaptureFields(env, x).destination, CaptureFields(env, y).destination;
    if p.Some? && q.Some? {
      DestinationExactly(env, x, p.value);
      DestinationExactly(env, y, q.value);
    }
    if Conflicting(env, x, y) {
      var d, e :| DestinationIs(x, d) && DestinationIs(y, e)
          && ComputeUrlRelationship(env.read, Some(d), Some(e)) == DifferentDestination;
      DestinationExactly(env, x, d);
      DestinationExactly(env, y, e);
    }
  }

  ghost predicate SignalsConflict(env: Env, xs: seq<Capture>) {
    exists x, y :: x in xs && y in xs && Signals(env, x) && Signals(env, y) && Conflicting(env, x, y)
  }

  /** Some of the captures signals a click, and no two that do are in conflict. */
  ghost predicate OneClick(env: Env, xs: seq<Capture>) {
    && (exists x :: x in xs && Signals(env, x))
    && !SignalsConflict(env, xs)
  }

  lemma ItemOfCapture(env: Env, targets: seq<string>, xs: seq<Capture>, x: Capture)
    requires x in xs
    ensures EngineItem(env, targets, x) in EngineItems(env, targets, xs)
  {
    var i :| 0 <= i < |xs| && xs[i] == x;
    assert EngineItems(env, targets, xs)[i] == EngineItem(env, targets, x);
  }

  lemma CaptureOfItem(env: Env, targets: seq<string>, xs: seq<Capture>, p: Item) returns (x: Capture)
    requires p in EngineItems(env, targets, xs)
    ensures x in xs && EngineItem(env, targets, x) == p
  {
    var i :| 0 <= i < |xs| && EngineItems(env, targets, xs)[i] == p;
    x := xs[i];
  }

  lemma SomeSignals(env: Env, targets: seq<string>, xs: seq<Capture>)
    ensures (exists x :: x in xs && Signals(env, x)) <==>
              exists p :: p in EngineItems(env, targets, xs) && p.classification == ClickEvent
  {
    if x :| x in xs && Signals(env, x) {
      SignalledExactly(env, targets, x);
      ItemOfCapture(env, targets, xs, x);
    }
    if p :| p in EngineItems(env, targets, xs) && p.classification == ClickEvent {
      var x := CaptureOfItem(env, targets, xs, p);
      SignalledExactly(env, targets, x);
    }
  }

  lemma SomeConflict(env: Env, targets: seq<string>, xs: seq<Capture>)
    ensures SignalsConflict(env, xs) <==> ItemsConflict(env.read, EngineItems(env, targets, xs))
  {
    if SignalsConflict(env, xs) {
      var x, y :| x in xs && y in xs && Signals(env, x) && Signals(env, y) && Conflicting(env, x, y);
      SignalledExactly(env, targets, x);
      SignalledExactly(env, targets, y);
      ItemOfCapture(env, targets, xs, x);
      ItemOfCapture(env, targets, xs, y);
      ConflictingExactly(env, targets, x, y);
    }
    if ItemsConflict(env.read, EngineItems(env, targets, xs)) {
      var p, q :| p in EngineItems(env, targets, xs) && q in EngineItems(env, targets, xs)
          && p.classification == ClickEvent && q.classification == ClickEvent
          && ComputeUrlRelationship(env.read, p.destination, q.destination) == DifferentDestination;
      var x := CaptureOfItem(env, targets, xs, p);
      var y := CaptureOfItem(env, targets, xs, q);
      SignalledExactly(env, targets, x);
      SignalledExactly(env, targets, y);
      ConflictingExactly(env, targets, x, y);
    }
  }

  /** When consent and the capture let it be read at all, the click of an action is captured if and only if some capture of its
      window signals one, and no two that do name different destinations. */
  lemma CapturedBySignals(env: Env, a: Action)
    requires (a.consentRequired ==> a.consentGranted) && a.captureComplete
    ensures EnginePrimary(env, a).status == Captured <==> OneClick(env, a.ga4 + a.pushes)
  {
    ResolvedExactly(env.read, EngineItems(env, a.targets, Window(a)));
    SomeSignals(env, a.targets, Window(a));
    SomeConflict(env, a.targets, Window(a));
  }

  /** Then the primary record is one of them, and none is richer. */
  lemma PrimaryIsRichest(env: Env, a: Action) returns (x: Capture)
    requires EnginePrimary(env, a).status == Captured
    ensures x in a.ga4 + a.pushes && Signals(env, x)
    ensures Filter(EngineItems(env, a.targets, Window(a)), IsClick())[EnginePrimary(env, a).primary.value]
            == EngineItem(env, a.targets, x)
    ensures forall y :: y in a.ga4 + a.pushes && Signals(env, y) ==> !Richer(env, CaptureFields(env, y), CaptureFields(env, x))
  {
    var items := EngineItems(env, a.targets, Window(a));
    var clicks := Filter(items, IsClick());
    FilterMembers(items, IsClick());
    var best := clicks[EnginePrimary(env, a).primary.value];
    x := CaptureOfItem(env, a.targets, Window(a), best);
    SignalledExactly(env, a.targets, x);
    forall y | y in a.ga4 + a.pushes && Signals(env, y)
      ensures !Richer(env, CaptureFields(env, y), CaptureFields(env, x))
    {
      SignalledExactly(env, a.targets, y);
      ItemOfCapture(env, a.targets, Window(a), y);
      var k :| 0 <= k < |clicks| && clicks[k] == EngineItem(env, a.targets, y);
      RicherExactly(env, CaptureFields(env, y), CaptureFields(env, x));
    }
  }

  // ---------------------------------------------------------------- the same for the reporting rows, event by event

  /** An event is read like a capture that holds nothing else. */
  function AsCapture(id: EventId): Capture {
    match id
    case Ga4Id(_, meta, url, httpMethod, measurementId, params, bodies, rawBody, _) =>
      Ga4(meta, url, httpMethod, measurementId, params, bodies, rawBody)
    case PushId(_, meta, _, payload) => Push(meta, "", [Plain(payload)])
  }

  lemma EventRead(env: Env, targets: seq<string>, id: EventId)
    ensures ItemOfId(env, targets, id) == EngineItem(env, targets, AsCapture(id))
  {
    if id.PushId? {
      assert AsRecs([Plain(id.payload)]) == [id.payload];
    }
  }

  ghost predicate EventSignals(env: Env, a: Action, id: EventId) {
    EventOf(a, id) && Signals(env, AsCapture(id))
  }

  ghost predicate EventsConflict(env: Env, a: Action) {
    exists id, other :: EventSignals(env, a, id) && EventSignals(env, a, other)
      && Conflicting(env, AsCapture(id), AsCapture(other))
  }

  lemma EntryOfItem(env: Env, a: Action, p: Item) returns (id: EventId)
    requires p in Items(BuildEntries(env, a, Window(a)))
    ensures EventOf(a, id) && p == EngineItem(env, a.targets, AsCapture(id))
  {
    var xs := BuildEntries(env, a, Window(a));
    var i :| 0 <= i < |xs| && Items(xs)[i] == p;
    id := xs[i].id;
    EntriesDerived(env, a, Window(a));
    EventRead(env, a.targets, id);
    BuiltExactly(env, a, id);
    assert xs[i] in xs;
  }

  lemma ItemOfEvent(env: Env, a: Action, id: EventId)
    requires EventOf(a, id)
    ensures EngineItem(env, a.targets, AsCapture(id)) in Items(BuildEntries(env, a, Window(a)))
  {
    var xs := BuildEntries(env, a, Window(a));
    BuiltExactly(env, a, id);
    var e :| e in xs && e.id == id;
    EntriesDerived(env, a, Window(a));
    EventRead(env, a.targets, id);
    var i :| 0 <= i < |xs| && xs[i] == e;
    assert Items(xs)[i] == e.item;
  }

  lemma SomeEventSignals(env: Env, a: Action)
    ensures (exists id :: EventSignals(env, a, id)) <==>
              exists p :: p in Items(BuildEntries(env, a, Window(a))) && p.classification == ClickEvent
  {
    if id :| EventSignals(env, a, id) {
      SignalledExactly(env, a.targets, AsCapture(id));
      ItemOfEvent(env, a, id);
    }
    if p :| p in Items(BuildEntries(env, a, Window(a))) && p.classification == ClickEvent {
      var id := EntryOfItem(env, a, p);
      SignalledExactly(env, a.targets, AsCapture(id));
      assert EventSignals(env, a, id);
    }
  }

  lemma SomeEventsConflict(env: Env, a: Action)
    ensures EventsConflict(env, a) <==> ItemsConflict(env.read, Items(BuildEntries(env, a, Window(a))))
  {
    var items := Items(BuildEntries(env, a, Window(a)));
    if EventsConflict(env, a) {
      var id, other :| EventSignals(env, a, id) && EventSignals(env, a, other)
          && Conflicting(env, AsCapture(id), AsCapture(other));
      SignalledExactly(env, a.targets, AsCapture(id));
      SignalledExactly(env, a.targets, AsCapture(other));
      ItemOfEvent(env, a, id);
      ItemOfEvent(env, a, other);
      ConflictingExactly(env, a.targets, AsCapture(id), AsCapture(other));
    }
    if ItemsConflict(env.read, items) {
      var p, q :| p in items && q in items && p.classification == ClickEvent && q.classification == ClickEvent
          && ComputeUrlRelationship(env.read, p.destination, q.destination) == DifferentDestination;
      var id := EntryOfItem(env, a, p);
      var other := EntryOfItem(env, a, q);
      SignalledExactly(env, a.targets, AsCapture(id));
      SignalledExactly(env, a.targets, AsCapture(other));
      ConflictingExactly(env, a.targets, AsCapture(id), AsCapture(other));
      assert EventSignals(env, a, id) && EventSignals(env, a, other);
    }
  }

  /** Past the gates the reporting rows resolve all events read, repeats or not. */
  lemma ReportingResolves(env: Env, a: Action)
    requires (a.consentRequired ==> a.consentGranted) && a.captureComplete
    ensures var items := Items(BuildEntries(env, a, Window(a)));
            ReportingPrimary(env, a).status == Resolve(env.read, Filter(items, IsClick()), AnyUnresolved(items)).status
  {
    EntriesDerived(env, a, Window(a));
    ResolveAfterDedupe(env, a.targets, BuildEntries(env, a, Window(a)));
    NotGated(env, a);
  }

  lemma NotGated(env: Env, a: Action)
    requires (a.consentRequired ==> a.consentGranted) && a.captureComplete
    ensures EngineStatus(env, a) != ConsentUnknown && EngineStatus(env, a) != Incomplete
  {}

  /** The reporting rows take the click for captured if and only if some event of the window, read alone, signals one, and no two
      that do name different destinations. */
  lemma ReportedBySignals(env: Env, a: Action)
    requires (a.consentRequired ==> a.consentGranted) && a.captureComplete
    ensures ReportingPrimary(env, a).status == Captured <==>
              (exists id :: EventSignals(env, a, id)) && !EventsConflict(env, a)
  {
    ReportingResolves(env, a);
    ResolvedExactly(env.read, Items(BuildEntries(env, a, Window(a))));
    SomeEventSignals(env, a);
    SomeEventsConflict(env, a);
  }
}
