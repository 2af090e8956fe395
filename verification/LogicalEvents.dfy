/** Which events a capture holds, said over the capture itself: the objects of a push, the bodies of a request. */
module LogicalEvents {
  import opened Wrappers
  import opened Order
  import opened Evidence
  import opened ClickResolution

  // ---------------------------------------------------------------- the objects of a push

  /** How many of the elements are objects. */
  function Objects(items: seq<Raw>): nat {
    if items == [] then 0 else (if items[0].Plain? then 1 else 0) + Objects(items[1..])
  }

  /** An object holds itself, a bundle its objects, anything else nothing. */
  function Width(element: Raw): nat {
    match element
    case Plain(_) => 1
    case List(items) => Objects(items)
    case Other => 0
  }

  function TotalWidth(raw: seq<Raw>): nat {
    if raw == [] then 0 else Width(raw[0]) + TotalWidth(raw[1..])
  }

  /** `rec` is element `i` of the push, or the object at `j` in the bundle there. */
  ghost predicate ObjectAt(raw: seq<Raw>, i: nat, j: nat, rec: Rec) {
    i < |raw| &&
    match raw[i]
    case Plain(own) => j == 0 && own == rec
    case List(items) => j < |items| && items[j] == Plain(rec)
    case Other => false
  }

  /** How many objects come before place `j` of element `i`. */
  function Rank(raw: seq<Raw>, i: nat, j: nat): nat
    requires i < |raw|
  {
    TotalWidth(raw[..i]) + if raw[i].List? && j <= |raw[i].items| then Objects(raw[i].items[..j]) else 0
  }

  lemma {:induction false} ObjectsCounted(items: seq<Raw>)
    ensures |PlainOnes(items)| == Objects(items)
  {
    if items != [] {
      ObjectsCounted(items[1..]);
    }
  }

  lemma {:induction false} ObjectInBundle(items: seq<Raw>, j: nat)
    requires j < |items| && items[j].Plain?
    ensures Objects(items[..j]) < |PlainOnes(items)| && PlainOnes(items)[Objects(items[..j])] == items[j].rec
  {
    if j > 0 {
      ObjectInBundle(items[1..], j - 1);
      assert items[..j][1..] == items[1..][..j - 1];
    }
  }

  lemma {:induction false} BundleObjectFrom(items: seq<Raw>, k: nat) returns (j: nat)
    requires k < |PlainOnes(items)|
    ensures j < |items| && items[j] == Plain(PlainOnes(items)[k]) && Objects(items[..j]) == k
  {
    if items[0].Plain? && k == 0 {
      j := 0;
    } else {
      var h := BundleObjectFrom(items[1..], if items[0].Plain? then k - 1 else k);
      j := h + 1;
      assert items[..j][1..] == items[1..][..h];
    }
  }

  /** What one element is expanded to. */
  function Expanded(element: Raw): seq<Rec> {
    var u := Unwrapped(element);
    if u.List? then PlainOnes(u.items) else PlainOnes([u])
  }

  lemma ExpandedCounted(element: Raw)
    ensures |Expanded(element)| == Width(element)
    ensures element.List? ==> Expanded(element) == PlainOnes(element.items)
    ensures element.Plain? ==> Expanded(element) == [element.rec]
  {
    var u := Unwrapped(element);
    OnlyOne(u);
    if element.List? {
      ObjectsCounted(element.items);
      if u.Plain? {
        assert element.items == [u];
      }
    }
  }

  lemma OnlyOne(u: Raw)
    ensures PlainOnes([u]) == if u.Plain? then [u.rec] else []
  {
    assert [u][1..] == [] && PlainOnes([]) == [];
  }

  /** The expansion has as many events as the push has objects. */
  lemma {:induction false} FlattenCounted(raw: seq<Raw>)
    ensures |FlattenDataLayer(raw)| == TotalWidth(raw)
  {
    if raw != [] {
      ExpandedCounted(raw[0]);
      FlattenCounted(raw[1..]);
    }
  }

  lemma RankLater(raw: seq<Raw>, i: nat, j: nat)
    requires 0 < i < |raw|
    ensures Rank(raw, i, j) == Width(raw[0]) + Rank(raw[1..], i - 1, j)
  {
    assert raw[..i][1..] == raw[1..][..i - 1];
  }

  lemma FirstElementFlattened(raw: seq<Raw>, j: nat, rec: Rec)
    requires ObjectAt(raw, 0, j, rec)
    ensures Rank(raw, 0, j) < |FlattenDataLayer(raw)| && FlattenDataLayer(raw)[Rank(raw, 0, j)] == rec
  {
    ExpandedCounted(raw[0]);
    if raw[0].List? {
      ObjectInBundle(raw[0].items, j);
    }
    assert raw[..0] == [];
    assert FlattenDataLayer(raw) == Expanded(raw[0]) + FlattenDataLayer(raw[1..]);
  }

  /** Each object of the push is expanded to the event at its own place in the order. */
  lemma {:induction false} ObjectFlattened(raw: seq<Raw>, i: nat, j: nat, rec: Rec)
    requires ObjectAt(raw, i, j, rec)
    ensures Rank(raw, i, j) < |FlattenDataLayer(raw)| && FlattenDataLayer(raw)[Rank(raw, i, j)] == rec
  {
    if i == 0 {
      FirstElementFlattened(raw, j, rec);
    } else {
      ExpandedCounted(raw[0]);
      ObjectFlattened(raw[1..], i - 1, j, rec);
      RankLater(raw, i, j);
      assert FlattenDataLayer(raw) == Expanded(raw[0]) + FlattenDataLayer(raw[1..]);
    }
  }

  /** Every event comes from such an object. */
  lemma {:induction false} FlattenedFrom(raw: seq<Raw>, k: nat) returns (i: nat, j: nat)
    requires k < |FlattenDataLayer(raw)|
    ensures ObjectAt(raw, i, j, FlattenDataLayer(raw)[k]) && Rank(raw, i, j) == k
  {
    ExpandedCounted(raw[0]);
    assert FlattenDataLayer(raw) == Expanded(raw[0]) + FlattenDataLayer(raw[1..]);
    if k < Width(raw[0]) {
      i, j := 0, 0;
      assert raw[..0] == [];
      if raw[0].List? {
        j := BundleObjectFrom(raw[0].items, k);
      }
    } else {
      var h: nat;
      h, j := FlattenedFrom(raw[1..], k - Width(raw[0]));
      i := h + 1;
      RankLater(raw, i, j);
    }
  }

  // ---------------------------------------------------------------- the events of a capture

  /** A request with a name of its own, or with at most one body, is one event. */
  predicate OneEvent(params: Rec, bodies: seq<Rec>) {
    ("en" in params && params["en"] != "") || |bodies| <= 1
  }

  /** The capture itself holds the event: each object of a push is one, with its place; a request is one, or each of its bodies
      is. */
  ghost predicate Logical(actionId: Option<string>, x: Capture, id: EventId) {
    match x
    case Push(meta, _, raw) =>
      exists i: nat, j: nat, rec :: ObjectAt(raw, i, j, rec) && id == PushId(actionId, meta, Rank(raw, i, j), rec)
    case Ga4(meta, url, httpMethod, measurementId, params, bodies, rawBody) =>
      if OneEvent(params, bodies) then id == Ga4Id(actionId, meta, url, httpMethod, measurementId, params, bodies, rawBody, None)
      else exists b: nat :: b < |bodies|
             && id == Ga4Id(actionId, meta, url, httpMethod, measurementId, params, [bodies[b]], rawBody, Some(b))
  }

  /** How many events the capture holds. */
  function EventCount(x: Capture): nat {
    match x
    case Push(_, _, raw) => TotalWidth(raw)
    case Ga4(_, _, _, _, params, bodies, _) => if OneEvent(params, bodies) then 1 else |bodies|
  }

  /** The capture expands to an event of this identity, read as part of that window. */
  predicate Yields(env: Env, a: Action, x: Capture, id: EventId) {
    exists e :: e in EntriesOf(env, a, x) && e.id == id
  }

  lemma PushYieldsLogical(env: Env, a: Action, x: Capture, id: EventId)
    requires x.Push?
    ensures Yields(env, a, x, id) <==> Logical(a.actionId, x, id)
  {
    var recs := FlattenDataLayer(x.raw);
    if Yields(env, a, x, id) {
      var k :| 0 <= k < |recs| && PushEntries(env, a, x, recs)[k].id == id;
      var i, j := FlattenedFrom(x.raw, k);
      assert ObjectAt(x.raw, i, j, recs[k]);
    }
    if Logical(a.actionId, x, id) {
      var i: nat, j: nat, rec :| ObjectAt(x.raw, i, j, rec) && id == PushId(a.actionId, x.meta, Rank(x.raw, i, j), rec);
      ObjectFlattened(x.raw, i, j, rec);
      assert PushEntries(env, a, x, recs)[Rank(x.raw, i, j)] in PushEntries(env, a, x, recs);
    }
  }

  lemma RequestYieldsLogical(env: Env, a: Action, x: Capture, id: EventId)
    requires x.Ga4?
    ensures Yields(env, a, x, id) <==> Logical(a.actionId, x, id)
  {
    var es := Ga4Entries(env, a, x);
    if Yields(env, a, x, id) {
      var k :| 0 <= k < |es| && es[k].id == id;
    }
    if Logical(a.actionId, x, id) {
      if OneEvent(x.params, x.bodies) {
        assert es[0] in es;
      } else {
        var b: nat :| b < |x.bodies|
            && id == Ga4Id(a.actionId, x.meta, x.requestUrl, x.httpMethod, x.measurementId, x.params, [x.bodies[b]], x.rawBody,
                Some(b));
        assert es[b] in es;
      }
    }
  }

  /** A capture is expanded to exactly the events it holds, each once. */
  lemma YieldsExactly(env: Env, a: Action, x: Capture, id: EventId)
    ensures Yields(env, a, x, id) <==> Logical(a.actionId, x, id)
    ensures |EntriesOf(env, a, x)| == EventCount(x)
  {
    if x.Push? {
      PushYieldsLogical(env, a, x, id);
      FlattenCounted(x.raw);
    } else {
      RequestYieldsLogical(env, a, x, id);
    }
  }

  lemma {:induction false} BuiltFrom(env: Env, a: Action, xs: seq<Capture>, e: Entry)
    ensures e in BuildEntries(env, a, xs) <==> exists x :: x in xs && e in EntriesOf(env, a, x)
  {
    if xs != [] {
      var front, last := xs[..|xs| - 1], xs[|xs| - 1];
      BuiltFrom(env, a, front, e);
      assert forall x :: x in xs <==> x in front || x == last;
    }
  }

  /** A capture of the action's window holds the event. */
  ghost predicate EventOf(a: Action, id: EventId) {
    exists x :: x in a.ga4 + a.pushes && Logical(a.actionId, x, id)
  }

  lemma BuiltExactly(env: Env, a: Action, id: EventId)
    ensures (exists e :: e in BuildEntries(env, a, Window(a)) && e.id == id) <==> EventOf(a, id)
  {
    if e :| e in BuildEntries(env, a, Window(a)) && e.id == id {
      BuiltFrom(env, a, Window(a), e);
      var x :| x in Window(a) && e in EntriesOf(env, a, x);
      assert Yields(env, a, x, id);
      YieldsExactly(env, a, x, id);
    }
    if x :| x in Window(a) && Logical(a.actionId, x, id) {
      YieldsExactly(env, a, x, id);
      var e :| e in EntriesOf(env, a, x) && e.id == id;
      BuiltFrom(env, a, Window(a), e);
    }
  }
}
