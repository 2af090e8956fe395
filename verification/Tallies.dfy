/** Request tallies by resource type, in the order the types were first seen. */
module Tallies {

  /** The browser's own names for what a request fetches. */
  datatype ResourceType =
    | Document | Stylesheet | Image | Media | Font | Script | TextTrack | Xhr | Fetch | EventSource | WebSocket | Manifest
        | OtherResource

  datatype Tally = Tally(allowedCount: nat, allowedBytesMeasured: nat, blockedCount: nat)

  datatype Entry = Entry(resourceType: ResourceType, tally: Tally)

  /** The three things a tally counts. */
  datatype Kind = Allowed | AllowedBytes | BlockedRequests

  const ZERO := Tally(0, 0, 0)

  function Part(x: Tally, k: Kind): nat {
    match k
    case Allowed => x.allowedCount
    case AllowedBytes => x.allowedBytesMeasured
    case BlockedRequests => x.blockedCount
  }

  function Plus(a: Tally, b: Tally): (r: Tally)
    ensures forall k :: Part(r, k) == Part(a, k) + Part(b, k)
  {
    Tally(a.allowedCount + b.allowedCount, a.allowedBytesMeasured + b.allowedBytesMeasured, a.blockedCount + b.blockedCount)
  }

  function Only(e: Entry, t: ResourceType, k: Kind): nat {
    if e.resourceType == t then Part(e.tally, k) else 0
  }

  /** Everything of kind `k` counted under `t`. */
  function Count(ts: seq<Entry>, t: ResourceType, k: Kind): nat {
    if ts == [] then 0 else Only(ts[0], t, k) + Count(ts[1..], t, k)
  }

  predicate OneEntryAType(ts: seq<Entry>) {
    forall i, j :: 0 <= i < j < |ts| ==> ts[i].resourceType != ts[j].resourceType
  }

  lemma {:induction false} CountConcat(x: seq<Entry>, y: seq<Entry>, t: ResourceType, k: Kind)
    ensures Count(x + y, t, k) == Count(x, t, k) + Count(y, t, k)
  {
    if x == [] {
      assert x + y == y;
    } else {
      CountConcat(x[1..], y, t, k);
      assert (x + y)[1..] == x[1..] + y;
    }
  }

  lemma CountSnoc(ts: seq<Entry>, e: Entry, t: ResourceType, k: Kind)
    ensures Count(ts + [e], t, k) == Count(ts, t, k) + Only(e, t, k)
  {
    CountConcat(ts, [e], t, k);
    assert [e][1..] == [];
  }

  lemma UpdateCount(ts: seq<Entry>, i: nat, e: Entry, t: ResourceType, k: Kind)
    requires i < |ts|
    ensures Count(ts[i := e], t, k) == Count(ts, t, k) - Only(ts[i], t, k) + Only(e, t, k)
  {
    assert ts[i := e] == (ts[..i] + [e]) + ts[i + 1..];
    assert ts == (ts[..i] + [ts[i]]) + ts[i + 1..];
    CountConcat(ts[..i] + [e], ts[i + 1..], t, k);
    CountSnoc(ts[..i], e, t, k);
    CountConcat(ts[..i] + [ts[i]], ts[i + 1..], t, k);
    CountSnoc(ts[..i], ts[i], t, k);
  }

  /** `after` counts what `before` counts and `d` more under `t`. */
  ghost predicate Raised(before: seq<Entry>, after: seq<Entry>, t: ResourceType, d: Tally) {
    forall u, k :: Count(after, u, k) == Count(before, u, k) + if u == t then Part(d, k) else 0
  }

  /** Finds the type's tally, or adds one, and adds `d` to it. */
  method AddTo(ts: seq<Entry>, t: ResourceType, d: Tally) returns (r: seq<Entry>)
    ensures Raised(ts, r, t, d)
    ensures OneEntryAType(ts) ==> OneEntryAType(r)
  {
    for i := 0 to |ts|
      invariant forall j :: 0 <= j < i ==> ts[j].resourceType != t
    {
      if ts[i].resourceType == t {
        r := ts[i := Entry(t, Plus(ts[i].tally, d))];
        forall u, k
          ensures Count(r, u, k) == Count(ts, u, k) + if u == t then Part(d, k) else 0
        {
          UpdateCount(ts, i, Entry(t, Plus(ts[i].tally, d)), u, k);
        }
        return;
      }
    }
    r := ts + [Entry(t, d)];
    forall u, k
      ensures Count(r, u, k) == Count(ts, u, k) + if u == t then Part(d, k) else 0
    {
      CountSnoc(ts, Entry(t, d), u, k);
    }
  }

  /** Adds every entry of `more` to `into`. */
  method Merge(into: seq<Entry>, more: seq<Entry>) returns (r: seq<Entry>)
    ensures forall u, k :: Count(r, u, k) == Count(into, u, k) + Count(more, u, k)
    ensures OneEntryAType(into) ==> OneEntryAType(r)
  {
    r := into;
    for i := 0 to |more|
      invariant forall u, k :: Count(r, u, k) + Count(more[i..], u, k) == Count(into, u, k) + Count(more, u, k)
      invariant OneEntryAType(into) ==> OneEntryAType(r)
    {
      assert more[i..][0] == more[i] && more[i..][1..] == more[i + 1..];
      r := AddTo(r, more[i].resourceType, more[i].tally);
    }
  }

  /** What was never downloaded is estimated by a documented average for its type. */
  function BlockedBytesEstimated(t: ResourceType, blocked: nat): nat {
    match t
    case Image => blocked * 150000
    case Media => blocked * 2000000
    case Font => blocked * 50000
    case _ => 0
  }
}
