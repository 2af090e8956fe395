/** Reading and classifying one captured GA4 request or dataLayer push. */
module Evidence {
  import opened Wrappers
  import opened Order
  import opened UrlRelations

  type Rec = map<string, string>

  /** One element of a dataLayer capture: an event object, an array of elements, or anything else. */
  datatype Raw = Plain(rec: Rec) | List(items: seq<Raw>) | Other

  datatype Meta = Meta(source: string, contextId: Option<string>, stepIndex: int, timestamp: string)

  datatype Capture =
    | Ga4(meta: Meta, requestUrl: string, httpMethod: string, measurementId: Option<string>, params: Rec, bodies: seq<Rec>,
        rawBody: Option<string>)
    | Push(meta: Meta, url: string, raw: seq<Raw>)

  /** What the classifier takes from outside: the URL parser, the texts of the clicked element, label normalisation,
      lower-casing. */
  datatype Env = Env(read: UrlReader, labels: seq<string>, normalize: string -> string, lower: string -> string)

  datatype VirtualMeta = VirtualMeta(
    virtualPageUrl: Option<string>, pageName: Option<string>, pageCategory: Option<string>,
    formName: Option<string>, stepName: Option<string>, stepNumber: Option<string>)

  datatype Fields = Fields(
    location: Option<string>, fullUrl: Option<string>, destination: Option<string>,
    ctaIdentifier: bool, ctaLabel: bool, eventName: Option<string>,
    category: Option<string>, action: Option<string>, virtualMeta: Option<VirtualMeta>)

  datatype Classification =
    | ClickEvent | PhysicalPageChange | VirtualPageChange | FormOrConfiguratorState | OtherMeaningfulEvent | CorrelationUnresolved

  const CTA_IDENTIFIER_KEYS := ["cta", "cta_id", "ctaId", "link_id", "linkId", "link_classes", "linkClasses", "element_id",
      "elementId"]
  const CTA_TEXT_KEYS :=
    ["ctaText", "cta_text", "link_text", "linkText", "label", "button_text", "buttonText", "eventLabel", "event_label",
        "gtm.elementText"]
  const EVENT_CATEGORY_KEYS := ["eventCategory", "event_category"]
  const EVENT_ACTION_KEYS := ["eventAction", "event_action"]
  const PAGE_LOCATION_KEYS := ["page_location", "pageLocation"]
  const FULL_URL_KEYS := ["full_url", "fullUrl", "page_full_url"]
  const DESTINATION_KEYS :=
    ["link_url", "linkUrl", "destination_url", "destinationUrl", "click_url", "clickUrl", "outbound_url", "eventDestinationUrl",
     "event_destination_url", "gtm.elementUrl"]
  const VIRTUAL_URL_KEYS := ["virtualpage_url", "virtualPageUrl", "virtualPagePath"]
  const PAGE_NAME_KEYS := ["page_name", "pageName"]
  const PAGE_CATEGORY_KEYS := ["page_category", "pageCategory"]
  const FORM_NAME_KEYS := ["form_name", "formName"]
  const STEP_NAME_KEYS := ["step_name", "stepName"]
  const INTERACTION_EVENT_NAMES := {"click", "outbound_click", "gtm.linkclick", "gtm.formsubmit", "gtm.click"}
  const PAGE_VIEW_EVENT_NAMES := {"page_view", "pageview"}

  /** The first key holding a non-empty string. */
  function ReadStringField(rec: Rec, keys: seq<string>): Option<string> {
    if keys == [] then None
    else if keys[0] in rec && rec[keys[0]] != "" then Some(rec[keys[0]])
    else ReadStringField(rec, keys[1..])
  }

  function Get(rec: Rec, key: string): Option<string> {
    if key in rec then Some(rec[key]) else None
  }

  /** The first record that yields a value wins, field by field. */
  function FirstOf<T>(recs: seq<Rec>, f: Rec -> Option<T>): Option<T> {
    if recs == [] then None else if f(recs[0]).Some? then f(recs[0]) else FirstOf(recs[1..], f)
  }

  predicate AnyOf(recs: seq<Rec>, p: Rec -> bool) {
    recs != [] && (p(recs[0]) || AnyOf(recs[1..], p))
  }

  function Field(keys: seq<string>): Rec -> Option<string> {
    (rec: Rec) => ReadStringField(rec, keys)
  }

  function ExtractVirtualMeta(rec: Rec): Option<VirtualMeta> {
    var m := VirtualMeta(
      ReadStringField(rec, VIRTUAL_URL_KEYS),
      ReadStringField(rec, PAGE_NAME_KEYS),
      ReadStringField(rec, PAGE_CATEGORY_KEYS),
      ReadStringField(rec, FORM_NAME_KEYS),
      ReadStringField(rec, STEP_NAME_KEYS),
      if "step_number" in rec then Some(rec["step_number"]) else Get(rec, "stepNumber"));
    if m == VirtualMeta(None, None, None, None, None, None) then None else Some(m)
  }

  predicate Includes(s: string, part: string) {
    exists i :: 0 <= i <= |s| - |part| && s[i..][..|part|] == part
  }

  /** Normalised, the text and one of the element's texts include one another; an empty one matches nothing. */
  predicate LabelMatches(env: Env, rec: Rec) {
    var text := ReadStringField(rec, CTA_TEXT_KEYS);
    text.Some? &&
    var candidate := env.normalize(text.value);
    candidate != "" &&
    exists own :: own in env.labels && own != "" && env.normalize(own) != ""
                    && (Includes(candidate, env.normalize(own)) || Includes(env.normalize(own), candidate))
  }

  function CommonFields(env: Env, recs: seq<Rec>, location: Option<string>, fullUrl: Option<string>, destination: Option<string>,
      eventName: Option<string>): Fields {
    Fields(
      location, fullUrl, destination,
      AnyOf(recs, (rec: Rec) => ReadStringField(rec, CTA_IDENTIFIER_KEYS).Some?),
      AnyOf(recs, (rec: Rec) => LabelMatches(env, rec)),
      eventName,
      FirstOf(recs, Field(EVENT_CATEGORY_KEYS)),
      FirstOf(recs, Field(EVENT_ACTION_KEYS)),
      FirstOf(recs, (rec: Rec) => ExtractVirtualMeta(rec)))
  }

  /** A GA4 request is its query parameters and then its batched bodies; the query's own event name wins even when empty. */
  function ReadGa4Fields(env: Env, params: Rec, bodies: seq<Rec>): Fields {
    var recs := [params] + bodies;
    var eventName := if "en" in params then Some(params["en"]) else FirstOf(bodies, Field(["en"]));
    CommonFields(env, recs, FirstOf(recs, Field(["dl"])), None, FirstOf(recs, Field(["link_url"])), eventName)
  }

  function AsRec(raw: Raw): Rec {
    if raw.Plain? then raw.rec else map[]
  }

  function AsRecs(raws: seq<Raw>): (r: seq<Rec>)
    ensures |r| == |raws| && forall i :: 0 <= i < |r| ==> r[i] == AsRec(raws[i])
  {
    seq(|raws|, i requires 0 <= i < |raws| => AsRec(raws[i]))
  }

  function ReadDataLayerFields(env: Env, recs: seq<Rec>): Fields {
    CommonFields(env, recs, FirstOf(recs, Field(PAGE_LOCATION_KEYS)), FirstOf(recs, Field(FULL_URL_KEYS)),
                 FirstOf(recs, Field(DESTINATION_KEYS)), FirstOf(recs, Field(["event"])))
  }

  predicate IsInteractionEvent(env: Env, f: Fields) {
    Truthy(f.eventName) && env.lower(f.eventName.value) in INTERACTION_EVENT_NAMES
  }

  function ClassifyEvidenceItem(env: Env, f: Fields, targets: seq<string>): Classification {
    var location := if f.location.Some? then f.location else f.fullUrl;
    var distinctName := Truthy(f.eventName) && env.lower(f.eventName.value) !in PAGE_VIEW_EVENT_NAMES;
    if f.virtualMeta.Some? then
      var m := f.virtualMeta.value;
      if Truthy(m.virtualPageUrl) || Truthy(m.pageName) || Truthy(m.pageCategory) then VirtualPageChange
          else FormOrConfiguratorState
    else if Truthy(f.destination) || f.ctaIdentifier || f.ctaLabel || IsInteractionEvent(env, f) then ClickEvent
    else if Truthy(location) && !distinctName && BestRelationship(env.read, location, targets) != DifferentDestination
        then PhysicalPageChange
    else if distinctName then OtherMeaningfulEvent
    else if Truthy(location) then CorrelationUnresolved
    else if Truthy(f.eventName) then OtherMeaningfulEvent
    else CorrelationUnresolved
  }

  predicate IsGenericGtmName(env: Env, name: Option<string>) {
    Truthy(name) && var n := env.lower(name.value); |n| >= 4 && n[..4] == "gtm."
  }

  function Point(b: bool): int {
    if b then 1 else 0
  }

  function ClickRichnessScore(env: Env, f: Fields): int {
    (if IsGenericGtmName(env, f.eventName) then 0 else 10)
    + Point(Truthy(f.category)) + Point(Truthy(f.action)) + Point(f.ctaLabel) + Point(f.ctaIdentifier)
        + Point(Truthy(f.destination))
  }

  /** A named business event always outranks a tag manager's own auto-event, whatever else either carries. */
  lemma BusinessEventOutranksAutoEvent(env: Env, rich: Fields, auto: Fields)
    requires !IsGenericGtmName(env, rich.eventName) && IsGenericGtmName(env, auto.eventName)
    ensures ClickRichnessScore(env, auto) < ClickRichnessScore(env, rich)
  {}

  /** Page evidence is kept off a genuinely different destination: an event is a page change exactly when it is no click
      or virtual state, names a location, has no name of its own beyond a page view, and some target is not a different
      destination, or there is no target at all. */
  lemma PhysicalPageChangeExactly(env: Env, f: Fields, targets: seq<string>)
    requires "" !in targets
    ensures ClassifyEvidenceItem(env, f, targets) == PhysicalPageChange <==>
              && f.virtualMeta.None?
              && !(Truthy(f.destination) || f.ctaIdentifier || f.ctaLabel || IsInteractionEvent(env, f))
              && Truthy(if f.location.Some? then f.location else f.fullUrl)
              && (Truthy(f.eventName) ==> env.lower(f.eventName.value) in PAGE_VIEW_EVENT_NAMES)
              && (targets == []
                  || exists t :: t in targets
                       && ComputeUrlRelationship(env.read, if f.location.Some? then f.location else f.fullUrl,
                           Some(t)) != DifferentDestination)
  {
    var location := if f.location.Some? then f.location else f.fullUrl;
    if Truthy(location) {
      SomeTargetNotDifferent(env.read, location, targets);
    }
  }

  lemma SomeTargetNotDifferent(read: UrlReader, location: Option<string>, targets: seq<string>)
    requires Truthy(location) && "" !in targets
    ensures BestRelationship(read, location, targets) != DifferentDestination <==>
              targets == [] || exists t :: t in targets && ComputeUrlRelationship(read, location, Some(t)) != DifferentDestination
  {
    if targets != [] {
      BestIsMostSpecific(read, location, targets);
    }
  }
}
