/** The two list operations both pipelines rely on: keeping first occurrences, and the runtime's stable sort. */
module Order {
  import opened Wrappers

  lemma TailConcat<T>(x: seq<T>, y: seq<T>)
    requires x != []
    ensures (x + y)[0] == x[0] && (x + y)[1..] == x[1..] + y
  {}

  lemma ConsEqual<T>(a: T, x: seq<T>, b: T, y: seq<T>)
    ensures [a] + x == [b] + y <==> a == b && x == y
  {
    assert ([a] + x)[0] == a && ([b] + y)[0] == b;
    assert ([a] + x)[1..] == x && ([b] + y)[1..] == y;
  }

  function Filter<T>(xs: seq<T>, p: T -> bool): seq<T> {
    if xs == [] then [] else if p(xs[0]) then [xs[0]] + Filter(xs[1..], p) else Filter(xs[1..], p)
  }

  lemma {:induction false} FilterConcat<T>(xs: seq<T>, ys: seq<T>, p: T -> bool)
    ensures Filter(xs + ys, p) == Filter(xs, p) + Filter(ys, p)
  {
    if xs == [] {
      assert [] + ys == ys;
    } else {
      FilterConcat(xs[1..], ys, p);
      assert (xs + ys)[0] == xs[0] && (xs + ys)[1..] == xs[1..] + ys;
      if p(xs[0]) {
        assert Filter(xs, p) + Filter(ys, p) == [xs[0]] + (Filter(xs[1..], p) + Filter(ys, p));
      }
    }
  }

  lemma FilterSnoc<T>(xs: seq<T>, x: T, p: T -> bool)
    ensures Filter(xs + [x], p) == if p(x) then Filter(xs, p) + [x] else Filter(xs, p)
  {
    FilterConcat(xs, [x], p);
    assert [x][1..] == [];
  }

  lemma {:induction false} FilterMultiset<T>(xs: seq<T>, p: T -> bool)
    ensures forall x :: multiset(Filter(xs, p))[x] == if p(x) then multiset(xs)[x] else 0
  {
    if xs != [] {
      FilterMultiset(xs[1..], p);
      assert xs == [xs[0]] + xs[1..];
      assert multiset(xs) == multiset{xs[0]} + multiset(xs[1..]);
    }
  }

  lemma {:induction false} FilterMembers<T>(xs: seq<T>, p: T -> bool)
    ensures forall x :: x in Filter(xs, p) <==> x in xs && p(x)
  {
    if xs != [] {
      FilterMembers(xs[1..], p);
    }
  }

  lemma SomeMember<T>(xs: seq<T>, p: T -> bool)
    ensures |Filter(xs, p)| >= 1 <==> exists x :: x in xs && p(x)
  {
    FilterMembers(xs, p);
    if Filter(xs, p) != [] {
      assert Filter(xs, p)[0] in Filter(xs, p);
    }
  }

  // ---------------------------------------------------------------- multisets of lists

  lemma TwiceInMultiset<T>(xs: seq<T>, i: nat, j: nat)
    requires i < j < |xs| && xs[i] == xs[j]
    ensures multiset(xs)[xs[i]] >= 2
  {
    assert xs == xs[..j] + [xs[j]] + xs[j + 1..];
    assert xs[i] in xs[..j];
    assert multiset(xs) == multiset(xs[..j]) + multiset{xs[j]} + multiset(xs[j + 1..]);
  }

  lemma {:induction false} OnceInMultiset<T>(xs: seq<T>, x: T)
    requires forall i, j :: 0 <= i < j < |xs| && xs[i] == x ==> xs[j] != x
    ensures multiset(xs)[x] <= 1
  {
    if xs != [] {
      var front := xs[..|xs| - 1];
      assert xs == front + [xs[|xs| - 1]];
      OnceInMultiset(front, x);
      if xs[|xs| - 1] == x {
        assert x !in front;
      }
    }
  }

  // ---------------------------------------------------------------- first occurrences

  predicate SameId<T, K(==)>(x: T, y: T, id: T -> Option<K>) {
    id(x).Some? && id(x) == id(y)
  }

  predicate Seen<T(==), K(==)>(xs: seq<T>, x: T, id: T -> Option<K>) {
    exists y :: y in xs && SameId(y, x, id)
  }

  /** Items without an identity are all kept; of items sharing one, the first is. */
  function FirstOccurrences<T(==), K(==)>(xs: seq<T>, id: T -> Option<K>): (r: seq<T>) {
    if xs == [] then []
    else
      var front, last := xs[..|xs| - 1], xs[|xs| - 1];
      FirstOccurrences(front, id) + if Seen(front, last, id) then [] else [last]
  }

  /** Every identity present survives exactly once, in order, and nothing is invented. */
  lemma {:induction false} FirstOccurrencesHold<T, K>(xs: seq<T>, id: T -> Option<K>)
    ensures var r := FirstOccurrences(xs, id);
            && (forall x :: x in r ==> x in xs)
            && (forall x :: x in xs && id(x).None? ==> x in r)
            && (forall x :: x in xs && id(x).Some? ==> Seen(r, x, id))
            && (forall i, j :: 0 <= i < j < |r| ==> !SameId(r[i], r[j], id))
  {
    if xs != [] {
      var front, last := xs[..|xs| - 1], xs[|xs| - 1];
      FirstOccurrencesHold(front, id);
      var kept, r := FirstOccurrences(front, id), FirstOccurrences(xs, id);
      assert xs == front + [last];
      assert forall x :: x in kept ==> x in r;
      forall x | x in xs && id(x).Some?
        ensures Seen(r, x, id)
      {
        if x in front {
          var y :| y in kept && SameId(y, x, id);
          assert y in r;
        } else if Seen(front, last, id) {
          var z :| z in front && SameId(z, last, id);
          var y :| y in kept && SameId(y, z, id);
          assert y in r && SameId(y, x, id);
        } else {
          assert last in r && SameId(last, x, id);
        }
      }
      forall i, j | 0 <= i < j < |r|
        ensures !SameId(r[i], r[j], id)
      {
        if j == |kept| {
          assert r[i] in kept && r[i] in front;
        }
      }
    }
  }

  /** A kept item with an identity is the earliest in the input that carries it. */
  lemma {:induction false} KeptIsFirst<T, K>(xs: seq<T>, id: T -> Option<K>, j: nat) returns (i: nat)
    requires j < |FirstOccurrences(xs, id)|
    ensures i < |xs| && xs[i] == FirstOccurrences(xs, id)[j]
    ensures forall k :: 0 <= k < i ==> !SameId(xs[k], xs[i], id)
    ensures FirstOccurrences(xs[..i], id) == FirstOccurrences(xs, id)[..j]
  {
    var front, last := xs[..|xs| - 1], xs[|xs| - 1];
    var kept := FirstOccurrences(front, id);
    if j < |kept| {
      i := KeptIsFirst(front, id, j);
      assert front[..i] == xs[..i];
    } else {
      i := |xs| - 1;
      assert forall k :: 0 <= k < i ==> xs[k] in front;
    }
  }

  /** The source's loop over a growing set of identities already seen. */
  method Deduplicate<T(==), K(==)>(xs: seq<T>, id: T -> Option<K>) returns (result: seq<T>)
    ensures result == FirstOccurrences(xs, id)
  {
    var seen: set<K> := {};
    result := [];
    for i := 0 to |xs|
      invariant result == FirstOccurrences(xs[..i], id)
      invariant forall k :: k in seen <==> exists x :: x in xs[..i] && id(x) == Some(k)
    {
      assert xs[..i + 1][..i] == xs[..i];
      match id(xs[i]) {
        case Some(k) =>
          assert k in seen <==> Seen(xs[..i], xs[i], id);
          if k !in seen {
            result := result + [xs[i]];
          }
          seen := seen + {k};
        case None =>
          result := result + [xs[i]];
      }
    }
    assert xs[..|xs|] == xs;
  }

  // ---------------------------------------------------------------- stable sort

  ghost predicate TotalPreorder<T(!new)>(le: (T, T) -> bool) {
    && (forall x, y :: le(x, y) || le(y, x))
    && (forall x, y, z :: le(x, y) && le(y, z) ==> le(x, z))
  }

  ghost predicate SortedBy<T>(xs: seq<T>, le: (T, T) -> bool) {
    forall i, j :: 0 <= i < j < |xs| ==> le(xs[i], xs[j])
  }

  /** Places `x` behind every item at the end of `xs` that is not above it. */
  function Insert<T>(xs: seq<T>, x: T, le: (T, T) -> bool): (r: seq<T>)
    ensures multiset(r) == multiset(xs) + multiset{x}
  {
    if xs == [] || le(xs[|xs| - 1], x) then xs + [x]
    else
      assert xs == xs[..|xs| - 1] + [xs[|xs| - 1]];
      Insert(xs[..|xs| - 1], x, le) + [xs[|xs| - 1]]
  }

  function StableSort<T>(xs: seq<T>, le: (T, T) -> bool): (r: seq<T>)
    ensures multiset(r) == multiset(xs)
  {
    if xs == [] then []
    else
      assert xs == xs[..|xs| - 1] + [xs[|xs| - 1]];
      Insert(StableSort(xs[..|xs| - 1], le), xs[|xs| - 1], le)
  }

  lemma SameMembers<T>(xs: seq<T>, ys: seq<T>)
    requires multiset(xs) == multiset(ys)
    ensures |xs| == |ys| && forall x :: x in xs <==> x in ys
  {
    assert |xs| == |multiset(xs)| == |multiset(ys)| == |ys|;
    forall x
      ensures x in xs <==> x in ys
    {
      assert x in multiset(xs) <==> x in multiset(ys);
    }
  }

  lemma {:induction false} InsertKeepsCount<T>(xs: seq<T>, x: T, le: (T, T) -> bool, p: T -> bool)
    ensures |Filter(Insert(xs, x, le), p)| == |Filter(xs, p)| + if p(x) then 1 else 0
  {
    if xs == [] || le(xs[|xs| - 1], x) {
      FilterSnoc(xs, x, p);
    } else {
      var front, last := xs[..|xs| - 1], xs[|xs| - 1];
      assert xs == front + [last];
      InsertKeepsCount(front, x, le, p);
      FilterSnoc(Insert(front, x, le), last, p);
      FilterSnoc(front, last, p);
    }
  }

  /** Sorting changes no count. */
  lemma {:induction false} SortKeepsCount<T>(xs: seq<T>, le: (T, T) -> bool, p: T -> bool)
    ensures |Filter(StableSort(xs, le), p)| == |Filter(xs, p)|
  {
    if xs != [] {
      var front, last := xs[..|xs| - 1], xs[|xs| - 1];
      assert xs == front + [last];
      SortKeepsCount(front, le, p);
      InsertKeepsCount(StableSort(front, le), last, le, p);
      FilterSnoc(front, last, p);
    }
  }

  /** A list on which the predicate never holds twice has at most one such item. */
  lemma {:induction false} FilterAtMostOne<T>(xs: seq<T>, p: T -> bool)
    requires forall i, j :: 0 <= i < j < |xs| ==> !(p(xs[i]) && p(xs[j]))
    ensures |Filter(xs, p)| <= 1
  {
    if xs != [] {
      var rest := xs[1..];
      forall i, j | 0 <= i < j < |rest|
        ensures !(p(rest[i]) && p(rest[j]))
      {
        assert rest[i] == xs[i + 1] && rest[j] == xs[j + 1];
      }
      FilterAtMostOne(rest, p);
      SomeMember(rest, p);
    }
  }

  lemma {:induction false} InsertSorted<T(!new)>(xs: seq<T>, x: T, le: (T, T) -> bool)
    requires TotalPreorder(le) && SortedBy(xs, le)
    ensures SortedBy(Insert(xs, x, le), le)
  {
    if xs != [] && !le(xs[|xs| - 1], x) {
      var front, last := xs[..|xs| - 1], xs[|xs| - 1];
      InsertSorted(front, x, le);
      assert xs == front + [last];
      forall y | y in Insert(front, x, le)
        ensures le(y, last)
      {
        assert y in multiset(Insert(front, x, le));
        assert y == x || y in front;
      }
    }
  }

  lemma {:induction false} StableSortSorted<T(!new)>(xs: seq<T>, le: (T, T) -> bool)
    requires TotalPreorder(le)
    ensures SortedBy(StableSort(xs, le), le)
  {
    if xs != [] {
      StableSortSorted(xs[..|xs| - 1], le);
      InsertSorted(StableSort(xs[..|xs| - 1], le), xs[|xs| - 1], le);
    }
  }

  function Alike<T>(le: (T, T) -> bool, a: T): T -> bool {
    x => le(x, a) && le(a, x)
  }

  lemma {:induction false} InsertStable<T(!new)>(xs: seq<T>, x: T, le: (T, T) -> bool, a: T)
    requires TotalPreorder(le)
    ensures Filter(Insert(xs, x, le), Alike(le, a)) == Filter(xs, Alike(le, a)) + Filter([x], Alike(le, a))
  {
    var p := Alike(le, a);
    if xs == [] || le(xs[|xs| - 1], x) {
      FilterConcat(xs, [x], p);
    } else {
      var front, last := xs[..|xs| - 1], xs[|xs| - 1];
      assert xs == front + [last];
      InsertStable(front, x, le, a);
      FilterConcat(Insert(front, x, le), [last], p);
      FilterConcat(front, [last], p);
      assert !(p(x) && p(last));
    }
  }

  /** Items that compare equal keep their order. */
  lemma {:induction false} StableSortStable<T(!new)>(xs: seq<T>, le: (T, T) -> bool, a: T)
    requires TotalPreorder(le)
    ensures Filter(StableSort(xs, le), Alike(le, a)) == Filter(xs, Alike(le, a))
  {
    if xs != [] {
      var front, last := xs[..|xs| - 1], xs[|xs| - 1];
      assert xs == front + [last];
      StableSortStable(front, le, a);
      InsertStable(StableSort(front, le), last, le, a);
      FilterConcat(front, [last], Alike(le, a));
    }
  }

  /** Sorting what is sorted changes nothing. */
  lemma {:induction false} StableSortNoOp<T>(xs: seq<T>, le: (T, T) -> bool)
    requires SortedBy(xs, le)
    ensures StableSort(xs, le) == xs
  {
    if xs != [] {
      var front, last := xs[..|xs| - 1], xs[|xs| - 1];
      assert xs == front + [last];
      StableSortNoOp(front, le);
      assert front != [] ==> le(xs[|front| - 1], xs[|front|]);
    }
  }
}
