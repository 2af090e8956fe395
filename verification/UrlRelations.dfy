/** The diagnostic relationship between an analytics URL and a target URL. */
module UrlRelations {
  import opened Wrappers
  import opened Order

  datatype Relationship = ExactMatch | TrackingParametersOnly | SamePhysicalPage | DifferentVirtualState | DifferentDestination
      | Unavailable

  /** What is compared of an absolute URL: its text without tracking parameters, its origin and its path. */
  datatype Parsed = Parsed(stripped: string, origin: string, path: string)

  type UrlReader = string -> Option<Parsed>

  predicate Truthy(s: Option<string>) {
    s.Some? && s.value != ""
  }

  function ComputeUrlRelationship(read: UrlReader, candidate: Option<string>, target: Option<string>): Relationship {
    if !Truthy(candidate) || !Truthy(target) then Unavailable
    else if candidate == target then ExactMatch
    else match (read(candidate.value), read(target.value))
      case (Some(a), Some(b)) =>
        if a.stripped == b.stripped then TrackingParametersOnly
        else if a.origin == b.origin && a.path == b.path then SamePhysicalPage
        else DifferentDestination
      case _ => DifferentVirtualState
  }

  /** The two texts are read as URLs. */
  predicate BothRead(read: UrlReader, a: string, b: string) {
    read(a).Some? && read(b).Some?
  }

  predicate SameButTracking(read: UrlReader, a: string, b: string) {
    BothRead(read, a, b) && read(a).value.stripped == read(b).value.stripped
  }

  predicate SamePage(read: UrlReader, a: string, b: string) {
    BothRead(read, a, b) && read(a).value.origin == read(b).value.origin && read(a).value.path == read(b).value.path
  }

  /** When two texts are in which relationship: equal texts first, then URLs that differ in tracking parameters alone, then URLs
      of one page; a text that is no URL is in another virtual state. */
  lemma RelationshipExactly(read: UrlReader, a: string, b: string)
    requires a != "" && b != ""
    ensures var r := ComputeUrlRelationship(read, Some(a), Some(b));
            && (r == ExactMatch <==> a == b)
            && (r == TrackingParametersOnly <==> a != b && SameButTracking(read, a, b))
            && (r == SamePhysicalPage <==> a != b && !SameButTracking(read, a, b) && SamePage(read, a, b))
            && (r == DifferentVirtualState <==> a != b && !BothRead(read, a, b))
            && (r == DifferentDestination <==>
                  a != b && BothRead(read, a, b) && !SameButTracking(read, a, b) && !SamePage(read, a, b))
  {}

  /** Neither side is privileged. */
  lemma RelationshipSymmetric(read: UrlReader, a: Option<string>, b: Option<string>)
    ensures ComputeUrlRelationship(read, a, b) == ComputeUrlRelationship(read, b, a)
  {}

  /** Position in the priority order: the lower, the more specific. */
  function Specificity(r: Relationship): nat {
    match r
    case ExactMatch => 0
    case TrackingParametersOnly => 1
    case SamePhysicalPage => 2
    case DifferentVirtualState => 3
    case DifferentDestination => 4
    case Unavailable => 5
  }

  function BySpecificity(): (Relationship, Relationship) -> bool {
    (a: Relationship, b: Relationship) => Specificity(a) <= Specificity(b)
  }

  function Relationships(read: UrlReader, candidate: Option<string>, targets: seq<string>): (r: seq<Relationship>)
    ensures |r| == |targets|
    ensures forall i :: 0 <= i < |r| ==> r[i] == ComputeUrlRelationship(read, candidate, Some(targets[i]))
  {
    if targets == [] then []
    else [ComputeUrlRelationship(read, candidate, Some(targets[0]))] + Relationships(read, candidate, targets[1..])
  }

  function BestRelationship(read: UrlReader, candidate: Option<string>, targets: seq<string>): Relationship {
    var sorted := StableSort(Relationships(read, candidate, targets), BySpecificity());
    if sorted == [] then Unavailable else sorted[0]
  }

  /** Sorting and taking the head gives a relationship some target has and no target beats. */
  lemma BestIsMostSpecific(read: UrlReader, candidate: Option<string>, targets: seq<string>)
    requires targets != []
    ensures var best := BestRelationship(read, candidate, targets);
            && (exists t :: t in targets && ComputeUrlRelationship(read, candidate, Some(t)) == best)
            && (forall t :: t in targets ==> Specificity(best) <= Specificity(ComputeUrlRelationship(read, candidate, Some(t))))
  {
    var all, le := Relationships(read, candidate, targets), BySpecificity();
    var sorted := StableSort(all, le);
    StableSortSorted(all, le);
    SameMembers(sorted, all);
    assert sorted[0] in all;
    var i :| 0 <= i < |all| && all[i] == sorted[0];
    assert targets[i] in targets;
    forall t | t in targets
      ensures Specificity(sorted[0]) <= Specificity(ComputeUrlRelationship(read, candidate, Some(t)))
    {
      var k :| 0 <= k < |targets| && targets[k] == t;
      assert all[k] in sorted;
      var j :| 0 <= j < |sorted| && sorted[j] == all[k];
      assert j == 0 || le(sorted[0], sorted[j]);
    }
  }
}
