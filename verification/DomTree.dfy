/** A page's element tree, with the two upward walks that measure how far apart two elements are. */
module DomTree {
  import opened Wrappers

  /** Elements are numbered so that a parent comes before its children; the root's parent is -1. */
  datatype Dom = Dom(parent: seq<int>)

  predicate Valid(d: Dom) {
    forall i :: 0 <= i < |d.parent| ==> -1 <= d.parent[i] < i
  }

  predicate Element(d: Dom, x: int) {
    0 <= x < |d.parent|
  }

  /** `a` is `x` or one of the elements around it. */
  predicate Contains(d: Dom, a: int, x: int)
    requires Valid(d)
    decreases x
  {
    Element(d, x) && (a == x || Contains(d, a, d.parent[x]))
  }

  /** Steps up from `x` to `a`. */
  function Climb(d: Dom, x: int, a: int): nat
    requires Valid(d) && Contains(d, a, x)
    decreases x
  {
    if a == x then 0 else 1 + Climb(d, d.parent[x], a)
  }

  /** The first element on the way up from `x` that also holds `y`. */
  function Meet(d: Dom, x: int, y: int): (a: Option<int>)
    requires Valid(d)
    ensures a.Some? ==> Contains(d, a.value, x) && Contains(d, a.value, y)
    decreases x
  {
    if !Element(d, x) then None else if Contains(d, x, y) then Some(x) else Meet(d, d.parent[x], y)
  }

  /** The number of links between `x` and `y` through the element where their ways up meet. */
  function Hops(d: Dom, x: int, y: int): Option<nat>
    requires Valid(d)
  {
    match Meet(d, x, y)
    case None => None
    case Some(a) => Some(Climb(d, x, a) + Climb(d, y, a))
  }

  /**
   * The two walks: up from the trigger until an element holds the field, no further than the form, and
   * then up from the field to that element.
   */
  method MeasureHops(d: Dom, form: int, x: int, y: int) returns (hops: Option<nat>)
    requires Valid(d) && Contains(d, form, x) && Contains(d, form, y)
    ensures hops == Hops(d, x, y) && hops.Some?
  {
    var ancestor := x;
    var triggerHops := 0;
    var shared := None;
    MeetExists(d, form, x, y);
    ContainsBelow(d, form, x);
    while ancestor >= 0 && ancestor != d.parent[form] && shared.None?
      invariant shared.None? ==> Contains(d, ancestor, x) && Contains(d, form, ancestor)
      invariant shared.None? ==> Meet(d, ancestor, y) == Meet(d, x, y) && triggerHops == Climb(d, x, ancestor)
      invariant shared.Some? ==> shared == Meet(d, x, y) && triggerHops == Climb(d, x, shared.value)
      decreases ancestor, shared.None?
    {
      if Contains(d, ancestor, y) {
        shared := Some(ancestor);
      } else {
        NotPastTheForm(d, form, ancestor, y);
        ClimbFurther(d, x, ancestor);
        ancestor := d.parent[ancestor];
        triggerHops := triggerHops + 1;
      }
    }
    if shared.None? {
      ContainsBelow(d, form, ancestor);
      assert false;
    }
    var fieldAncestor := y;
    var fieldHops := 0;
    while fieldAncestor >= 0 && fieldAncestor != shared.value
      invariant Contains(d, shared.value, fieldAncestor) && Contains(d, fieldAncestor, y)
      invariant fieldHops + Climb(d, fieldAncestor, shared.value) == Climb(d, y, shared.value)
      decreases fieldAncestor
    {
      ClimbFurther(d, y, fieldAncestor);
      fieldAncestor := d.parent[fieldAncestor];
      fieldHops := fieldHops + 1;
    }
    hops := Some(triggerHops + fieldHops);
  }

  // ---------------------------------------------------------------- containment

  lemma {:induction false} ContainsBelow(d: Dom, a: int, x: int)
    requires Valid(d) && Contains(d, a, x)
    ensures 0 <= a <= x && Element(d, a)
    decreases x
  {
    if a != x {
      ContainsBelow(d, a, d.parent[x]);
    }
  }

  lemma {:induction false} ContainsTransitive(d: Dom, a: int, b: int, x: int)
    requires Valid(d) && Contains(d, a, b) && Contains(d, b, x)
    ensures Contains(d, a, x)
    ensures Climb(d, x, a) == Climb(d, x, b) + Climb(d, b, a)
    decreases x
  {
    if b != x {
      ContainsTransitive(d, a, b, d.parent[x]);
      ContainsBelow(d, a, b);
      ContainsBelow(d, b, d.parent[x]);
    }
  }

  lemma ClimbFurther(d: Dom, x: int, a: int)
    requires Valid(d) && Contains(d, a, x) && Element(d, a) && d.parent[a] >= 0
    ensures Contains(d, d.parent[a], x) && Climb(d, x, d.parent[a]) == Climb(d, x, a) + 1
  {
    assert Contains(d, d.parent[a], a);
    ContainsTransitive(d, d.parent[a], a, x);
  }

  /** Two elements around `x` lie one inside the other. */
  lemma {:induction false} ContainersNest(d: Dom, a: int, b: int, x: int)
    requires Valid(d) && Contains(d, a, x) && Contains(d, b, x)
    ensures Contains(d, a, b) || Contains(d, b, a)
    decreases x
  {
    if a != x && b != x {
      ContainersNest(d, a, b, d.parent[x]);
    }
  }

  lemma NotPastTheForm(d: Dom, form: int, ancestor: int, y: int)
    requires Valid(d) && Contains(d, form, ancestor) && Contains(d, form, y) && !Contains(d, ancestor, y)
    ensures ancestor != form && Element(d, ancestor) && d.parent[ancestor] >= 0 && Contains(d, form, d.parent[ancestor])
  {
    ContainsBelow(d, form, d.parent[ancestor]);
  }

  lemma {:induction false} MeetExists(d: Dom, form: int, x: int, y: int)
    requires Valid(d) && Contains(d, form, x) && Contains(d, form, y)
    ensures Meet(d, x, y).Some?
    decreases x
  {
    if !Contains(d, x, y) {
      MeetExists(d, form, d.parent[x], y);
    }
  }

  // ---------------------------------------------------------------- the lowest common ancestor

  /** Every element around both lies around the meeting place too. */
  lemma {:induction false} MeetIsLowest(d: Dom, x: int, y: int, b: int)
    requires Valid(d) && Contains(d, b, x) && Contains(d, b, y)
    ensures Meet(d, x, y).Some? && Contains(d, b, Meet(d, x, y).value)
    decreases x
  {
    if !Contains(d, x, y) {
      MeetIsLowest(d, d.parent[x], y, b);
    }
  }

  // ---------------------------------------------------------------- hops as distance

  predicate Linked(d: Dom, x: int, y: int) {
    Element(d, x) && Element(d, y) && (d.parent[x] == y || d.parent[y] == x)
  }

  /** A path of links between an element and its parent or child. */
  predicate Path(d: Dom, p: seq<int>, x: int, y: int) {
    && p != [] && p[0] == x && p[|p| - 1] == y
    && forall i :: 0 <= i < |p| - 1 ==> Linked(d, p[i], p[i + 1])
  }

  lemma LinkChangesHopsByOne(d: Dom, x: int, z: int, y: int)
    requires Valid(d) && Linked(d, x, z) && Hops(d, x, y).Some? && Hops(d, z, y).Some?
    ensures Hops(d, x, y).value <= Hops(d, z, y).value + 1
  {
    var child, parent := if d.parent[x] == z then x else z, if d.parent[x] == z then z else x;
    if Contains(d, child, y) {
      ClimbFurther(d, y, child);
    }
  }

  lemma {:induction false} NoPathShorter(d: Dom, p: seq<int>, x: int, y: int)
    requires Valid(d) && Path(d, p, x, y) && Meet(d, x, y).Some?
    ensures Hops(d, x, y).value <= |p| - 1
    decreases |p|
  {
    if |p| == 1 {
      assert Contains(d, x, y);
    } else {
      var z := p[1];
      assert Linked(d, p[0], p[1]);
      forall i | 0 <= i < |p[1..]| - 1
        ensures Linked(d, p[1..][i], p[1..][i + 1])
      {
        assert Linked(d, p[i + 1], p[i + 2]);
      }
      LinkMeets(d, x, z, y);
      NoPathShorter(d, p[1..], z, y);
      LinkChangesHopsByOne(d, x, z, y);
    }
  }

  lemma LinkMeets(d: Dom, x: int, z: int, y: int)
    requires Valid(d) && Linked(d, x, z) && Meet(d, x, y).Some?
    ensures Meet(d, z, y).Some?
  {
    if d.parent[x] == z {
      if Contains(d, x, y) {
        ClimbFurther(d, y, x);
      }
    }
  }

  /** The path the two walks take. */
  ghost function Walked(d: Dom, x: int, y: int): (p: seq<int>)
    requires Valid(d) && Hops(d, x, y).Some?
    decreases x + y
  {
    if x == y then [x]
    else if Contains(d, x, y) then WalkedDown(d, x, y)
    else [x] + Walked(d, d.parent[x], y)
  }

  ghost function WalkedDown(d: Dom, x: int, y: int): (p: seq<int>)
    requires Valid(d) && Contains(d, x, y)
    decreases y
  {
    if x == y then [x] else WalkedDown(d, x, d.parent[y]) + [y]
  }

  lemma {:induction false} WalkedDownIsPath(d: Dom, x: int, y: int)
    requires Valid(d) && Contains(d, x, y)
    ensures Path(d, WalkedDown(d, x, y), x, y) && |WalkedDown(d, x, y)| - 1 == Climb(d, y, x)
    decreases y
  {
    if x != y {
      WalkedDownIsPath(d, x, d.parent[y]);
    }
  }

  lemma {:induction false} WalkedIsPath(d: Dom, x: int, y: int)
    requires Valid(d) && Hops(d, x, y).Some?
    ensures Path(d, Walked(d, x, y), x, y) && |Walked(d, x, y)| - 1 == Hops(d, x, y).value
    decreases x
  {
    if x == y {
    } else if Contains(d, x, y) {
      WalkedDownIsPath(d, x, y);
    } else {
      WalkedIsPath(d, d.parent[x], y);
    }
  }

  /** The hop count is the length of the shortest path of links through the tree. */
  lemma HopsIsDistance(d: Dom, form: int, x: int, y: int)
    requires Valid(d) && Contains(d, form, x) && Contains(d, form, y)
    ensures Hops(d, x, y).Some?
    ensures exists p :: Path(d, p, x, y) && |p| - 1 == Hops(d, x, y).value
    ensures forall p :: Path(d, p, x, y) ==> Hops(d, x, y).value <= |p| - 1
  {
    MeetExists(d, form, x, y);
    WalkedIsPath(d, x, y);
    forall p | Path(d, p, x, y)
      ensures Hops(d, x, y).value <= |p| - 1
    {
      NoPathShorter(d, p, x, y);
    }
  }
}
