/** Structure of an XML response from its tags alone: a walk with a stack, and what it says of a well-formed tree. */
module XmlStructure {
  import opened Wrappers
  import Order

  datatype Tag = Open(name: string, selfClosing: bool) | Close(name: string)

  datatype Frame = Frame(name: string, hasElementChildren: bool)

  datatype NameCount = NameCount(name: string, count: nat)

  /** Counts by name in the order names were first met, like the runtime's maps. */
  type Counts = seq<NameCount>

  /** The walk's variables; the lists hold one entry for each of the depths 1, 2 and 3. */
  datatype Walk = Walk(stack: seq<Frame>, root: Option<string>, counts: seq<Counts>, nonLeaf: seq<set<string>>, errorSignal: bool)

  type NameTest = string -> bool

  const START := Walk([], None, [[], [], []], [{}, {}, {}], false)

  predicate ThreeLevels(w: Walk) {
    |w.counts| == 3 && |w.nonLeaf| == 3
  }

  function Bump(counts: Counts, name: string): Counts {
    if counts == [] then [NameCount(name, 1)]
    else if counts[0].name == name then [NameCount(name, counts[0].count + 1)] + counts[1..]
    else [counts[0]] + Bump(counts[1..], name)
  }

  function MarkParent(stack: seq<Frame>): seq<Frame> {
    if stack == [] then [] else stack[|stack| - 1 := stack[|stack| - 1].(hasElementChildren := true)]
  }

  /** One turn of the loop over tags. */
  function Feed1(isError: NameTest, w: Walk, t: Tag): (r: Walk)
    requires ThreeLevels(w)
    ensures ThreeLevels(r)
  {
    match t
    case Close(_) =>
      if w.stack == [] then w
      else
        var popped, rest := w.stack[|w.stack| - 1], w.stack[..|w.stack| - 1];
        if popped.hasElementChildren && 1 <= |rest| <= 3
        then w.(stack := rest, nonLeaf := w.nonLeaf[|rest| - 1 := w.nonLeaf[|rest| - 1] + {popped.name}])
        else w.(stack := rest)
    case Open(name, selfClosing) =>
      var depth := |w.stack|;
      var marked := MarkParent(w.stack);
      Walk(
        if selfClosing then marked else marked + [Frame(name, false)],
        if depth == 0 && w.root.None? then Some(name) else w.root,
        if 1 <= depth <= 3 then w.counts[depth - 1 := Bump(w.counts[depth - 1], name)] else w.counts,
        w.nonLeaf,
        w.errorSignal || (isError(name) && depth <= 2))
  }

  function Feed(isError: NameTest, w: Walk, tags: seq<Tag>): (r: Walk)
    requires ThreeLevels(w)
    ensures ThreeLevels(r)
    decreases |tags|
  {
    if tags == [] then w else Feed(isError, Feed1(isError, w, tags[0]), tags[1..])
  }

  lemma {:induction false} FeedConcat(isError: NameTest, w: Walk, x: seq<Tag>, y: seq<Tag>)
    requires ThreeLevels(w)
    ensures Feed(isError, w, x + y) == Feed(isError, Feed(isError, w, x), y)
    decreases |x|
  {
    if x == [] {
      assert x + y == y;
    } else {
      FeedConcat(isError, Feed1(isError, w, x[0]), x[1..], y);
      Order.TailConcat(x, y);
    }
  }

  // ---------------------------------------------------------------- trees and their tag streams

  /** An element with no children may be written with one self-closing tag. */
  datatype Element = Element(name: string, children: seq<Element>, selfClosed: bool)

  function Stream(e: Element): seq<Tag> {
    if e.selfClosed && e.children == [] then [Open(e.name, true)]
    else [Open(e.name, false)] + StreamAll(e.children) + [Close(e.name)]
  }

  function StreamAll(es: seq<Element>): seq<Tag> {
    if es == [] then [] else Stream(es[0]) + StreamAll(es[1..])
  }

  /** The elements `depth` levels below `e`, in document order. */
  function At(e: Element, depth: int): seq<Element>
    decreases e, 0
  {
    if depth < 0 then [] else if depth == 0 then [e] else AtAll(e.children, depth - 1)
  }

  function AtAll(es: seq<Element>, depth: int): seq<Element>
    decreases es, 1
  {
    if es == [] then [] else At(es[0], depth) + AtAll(es[1..], depth)
  }

  function Tally(counts: Counts, es: seq<Element>): Counts
    decreases |es|
  {
    if es == [] then counts else Tally(Bump(counts, es[0].name), es[1..])
  }

  function NonLeafNames(es: seq<Element>): set<string> {
    set e | e in es && e.children != [] :: e.name
  }

  predicate AnyError(isError: NameTest, es: seq<Element>) {
    exists e :: e in es && isError(e.name)
  }

  lemma {:induction false} TallyConcat(counts: Counts, x: seq<Element>, y: seq<Element>)
    ensures Tally(counts, x + y) == Tally(Tally(counts, x), y)
    decreases |x|
  {
    if x == [] {
      assert x + y == y;
    } else {
      TallyConcat(Bump(counts, x[0].name), x[1..], y);
      assert (x + y)[1..] == x[1..] + y;
    }
  }

  lemma NonLeafConcat(x: seq<Element>, y: seq<Element>)
    ensures NonLeafNames(x + y) == NonLeafNames(x) + NonLeafNames(y)
  {}

  /** Only an error name at depth 2 or above is a signal. */
  predicate ErrorWithin(isError: NameTest, es: seq<Element>, depth: nat) {
    AnyError(isError, AtAll(es, 0 - depth)) || AnyError(isError, AtAll(es, 1 - depth)) || AnyError(isError, AtAll(es, 2 - depth))
  }

  function TallyLevel(w: Walk, es: seq<Element>, k: nat): Counts
    requires ThreeLevels(w) && k < 3
  {
    Tally(w.counts[k], AtAll(es, k + 1 - |w.stack|))
  }

  function NonLeafLevel(w: Walk, es: seq<Element>, k: nat): set<string>
    requires ThreeLevels(w) && k < 3
  {
    w.nonLeaf[k] + NonLeafNames(AtAll(es, k + 1 - |w.stack|))
  }

  /** `w` with the sibling elements `es` taken in below the element on top of its stack. */
  function Taken(isError: NameTest, w: Walk, es: seq<Element>): (r: Walk)
    requires ThreeLevels(w)
    ensures ThreeLevels(r) && |r.stack| == |w.stack|
  {
    Walk(
      if es == [] then w.stack else MarkParent(w.stack),
      if w.stack == [] && w.root.None? && es != [] then Some(es[0].name) else w.root,
      [TallyLevel(w, es, 0), TallyLevel(w, es, 1), TallyLevel(w, es, 2)],
      [NonLeafLevel(w, es, 0), NonLeafLevel(w, es, 1), NonLeafLevel(w, es, 2)],
      w.errorSignal || ErrorWithin(isError, es, |w.stack|))
  }

  lemma {:induction false} NothingAbove(es: seq<Element>, depth: int)
    requires depth < 0
    ensures AtAll(es, depth) == []
    decreases |es|
  {
    if es != [] {
      NothingAbove(es[1..], depth);
    }
  }

  lemma AtAllOne(e: Element, depth: int)
    ensures AtAll([e], depth) == At(e, depth)
  {
    assert [e][1..] == [];
    assert AtAll([], depth) == [];
    assert At(e, depth) + [] == At(e, depth);
  }

  lemma AtAllCons(e: Element, rest: seq<Element>, depth: int)
    ensures AtAll([e] + rest, depth) == AtAll([e], depth) + AtAll(rest, depth)
  {
    AtAllOne(e, depth);
    assert ([e] + rest)[1..] == rest;
  }

  lemma AnyErrorConcat(isError: NameTest, x: seq<Element>, y: seq<Element>)
    ensures AnyError(isError, x + y) <==> AnyError(isError, x) || AnyError(isError, y)
  {}

  lemma LevelsConcat(w: Walk, v: Walk, e: Element, rest: seq<Element>, k: nat)
    requires ThreeLevels(w) && ThreeLevels(v) && k < 3 && |v.stack| == |w.stack|
    requires v.counts[k] == TallyLevel(w, [e], k) && v.nonLeaf[k] == NonLeafLevel(w, [e], k)
    ensures TallyLevel(v, rest, k) == TallyLevel(w, [e] + rest, k)
    ensures NonLeafLevel(v, rest, k) == NonLeafLevel(w, [e] + rest, k)
  {
    var d := k + 1 - |w.stack|;
    AtAllCons(e, rest, d);
    TallyConcat(w.counts[k], AtAll([e], d), AtAll(rest, d));
    NonLeafConcat(AtAll([e], d), AtAll(rest, d));
  }

  lemma ErrorConcat(isError: NameTest, e: Element, rest: seq<Element>, depth: nat)
    ensures ErrorWithin(isError, [e] + rest, depth) <==> ErrorWithin(isError, [e], depth) || ErrorWithin(isError, rest, depth)
  {
    AtAllCons(e, rest, 0 - depth);
    AtAllCons(e, rest, 1 - depth);
    AtAllCons(e, rest, 2 - depth);
    AnyErrorConcat(isError, AtAll([e], 0 - depth), AtAll(rest, 0 - depth));
    AnyErrorConcat(isError, AtAll([e], 1 - depth), AtAll(rest, 1 - depth));
    AnyErrorConcat(isError, AtAll([e], 2 - depth), AtAll(rest, 2 - depth));
  }

  lemma TakenConcat(isError: NameTest, w: Walk, e: Element, rest: seq<Element>)
    requires ThreeLevels(w)
    ensures Taken(isError, Taken(isError, w, [e]), rest) == Taken(isError, w, [e] + rest)
  {
    var v := Taken(isError, w, [e]);
    LevelsConcat(w, v, e, rest, 0);
    LevelsConcat(w, v, e, rest, 1);
    LevelsConcat(w, v, e, rest, 2);
    ErrorConcat(isError, e, rest, |w.stack|);
    assert MarkParent(MarkParent(w.stack)) == MarkParent(w.stack);
  }

  lemma TakenNothing(isError: NameTest, w: Walk)
    requires ThreeLevels(w)
    ensures Taken(isError, w, []) == w
  {
    var r := Taken(isError, w, []);
    assert NonLeafNames([]) == {};
    assert r.counts == w.counts;
    assert forall k :: 0 <= k < 3 ==> r.nonLeaf[k] == w.nonLeaf[k];
    assert r.nonLeaf == w.nonLeaf;
  }

  // ---------------------------------------------------------------- one element

  /** What the opening tag of `e` and its children leave in level `k`, against the whole of `e`. */
  lemma LevelsOfElement(w: Walk, v: Walk, e: Element, k: nat)
    requires ThreeLevels(w) && ThreeLevels(v) && k < 3
    requires |v.stack| == |w.stack| + 1
    requires v.counts[k] == if |w.stack| == k + 1 then Bump(w.counts[k], e.name) else w.counts[k]
    requires v.nonLeaf[k] == w.nonLeaf[k]
    ensures TallyLevel(v, e.children, k) == TallyLevel(w, [e], k)
    ensures NonLeafLevel(w, [e], k) == NonLeafLevel(v, e.children, k)
        + (if |w.stack| == k + 1 && e.children != [] then {e.name} else {})
  {
    var d := k + 1 - |w.stack|;
    assert k + 1 - |v.stack| == d - 1;
    TallyOfElement(w.counts[k], e, d);
    NonLeafOfElement(w.nonLeaf[k], e, d);
  }

  lemma TallyOfElement(before: Counts, e: Element, d: int)
    ensures Tally(before, AtAll([e], d)) == Tally(if d == 0 then Bump(before, e.name) else before, AtAll(e.children, d - 1))
  {
    ElementLevel(e, d);
    TallyOne(before, e);
  }

  lemma NonLeafOfElement(before: set<string>, e: Element, d: int)
    ensures before + NonLeafNames(AtAll([e], d)) ==
              before + NonLeafNames(AtAll(e.children, d - 1)) + (if d == 0 && e.children != [] then {e.name} else {})
  {
    ElementLevel(e, d);
    NonLeafOne(e);
  }

  /** The level of `e` itself holds `e`; any other level holds what its children have one level up. */
  lemma ElementLevel(e: Element, d: int)
    ensures AtAll([e], d) == if d == 0 then [e] else AtAll(e.children, d - 1)
    ensures d <= 0 ==> AtAll(e.children, d - 1) == []
  {
    AtAllOne(e, d);
    if d <= 0 {
      NothingAbove(e.children, d - 1);
    }
  }

  lemma TallyOne(counts: Counts, e: Element)
    ensures Tally(counts, [e]) == Bump(counts, e.name)
    ensures Tally(counts, []) == counts
  {
    assert [e][1..] == [];
  }

  lemma NonLeafOne(e: Element)
    ensures NonLeafNames([e]) == if e.children != [] then {e.name} else {}
    ensures NonLeafNames([]) == {}
  {}

  lemma ErrorAt(isError: NameTest, e: Element, depth: int)
    ensures AnyError(isError, AtAll([e], depth)) <==>
        (depth == 0 && isError(e.name)) || AnyError(isError, AtAll(e.children, depth - 1))
  {
    AtAllOne(e, depth);
    if depth <= 0 {
      NothingAbove(e.children, depth - 1);
      assert !AnyError(isError, []);
    }
    if depth == 0 {
      assert At(e, depth) == [e];
      assert e in [e];
    }
  }

  lemma ErrorOfElement(isError: NameTest, e: Element, depth: nat)
    ensures ErrorWithin(isError, [e], depth) <==> (isError(e.name) && depth <= 2) || ErrorWithin(isError, e.children, depth + 1)
  {
    ErrorAt(isError, e, 0 - depth);
    ErrorAt(isError, e, 1 - depth);
    ErrorAt(isError, e, 2 - depth);
    NothingAbove(e.children, 0 - depth - 1);
    assert !AnyError(isError, []);
  }

  lemma {:induction false} StreamTaken(isError: NameTest, w: Walk, e: Element)
    requires ThreeLevels(w)
    ensures Feed(isError, w, Stream(e)) == Taken(isError, w, [e])
    decreases e, 0
  {
    var v := Feed1(isError, w, Open(e.name, false));
    if e.selfClosed && e.children == [] {
      SelfClosedTaken(isError, w, e);
    } else {
      StreamAllTaken(isError, v, e.children);
      FeedConcat(isError, w, [Open(e.name, false)] + StreamAll(e.children), [Close(e.name)]);
      FeedConcat(isError, w, [Open(e.name, false)], StreamAll(e.children));
      FeedOne(isError, w, Open(e.name, false));
      FeedOne(isError, Taken(isError, v, e.children), Close(e.name));
      ClosedTaken(isError, w, v, e);
    }
  }

  lemma FeedOne(isError: NameTest, w: Walk, t: Tag)
    requires ThreeLevels(w)
    ensures Feed(isError, w, [t]) == Feed1(isError, w, t)
  {
    assert [t][1..] == [];
  }

  lemma {:induction false} SelfClosedTaken(isError: NameTest, w: Walk, e: Element)
    requires ThreeLevels(w) && e.selfClosed && e.children == []
    ensures Feed(isError, w, Stream(e)) == Taken(isError, w, [e])
  {
    FeedOne(isError, w, Open(e.name, true));
    ErrorOfElement(isError, e, |w.stack|);
    TakenNothing(isError, Feed1(isError, w, Open(e.name, false)));
    SelfClosedLevel(isError, w, e, 0);
    SelfClosedLevel(isError, w, e, 1);
    SelfClosedLevel(isError, w, e, 2);
  }

  lemma SelfClosedLevel(isError: NameTest, w: Walk, e: Element, k: nat)
    requires ThreeLevels(w) && e.children == [] && k < 3
    ensures Feed1(isError, w, Open(e.name, true)).counts[k] == TallyLevel(w, [e], k)
    ensures Feed1(isError, w, Open(e.name, true)).nonLeaf[k] == NonLeafLevel(w, [e], k)
  {
    var v := Feed1(isError, w, Open(e.name, false));
    LevelsOfElement(w, v, e, k);
    assert NonLeafNames([]) == {};
    assert AtAll(e.children, k + 1 - |v.stack|) == [];
  }

  /** The closing tag finds the element's own frame on top, marked exactly when it had children. */
  lemma ClosedStack(isError: NameTest, w: Walk, e: Element)
    requires ThreeLevels(w)
    ensures Taken(isError, Feed1(isError, w, Open(e.name, false)), e.children).stack
            == MarkParent(w.stack) + [Frame(e.name, e.children != [])]
  {}

  lemma ClosedLevel(isError: NameTest, w: Walk, v: Walk, e: Element, k: nat)
    requires ThreeLevels(w) && k < 3 && v == Feed1(isError, w, Open(e.name, false))
    ensures Feed1(isError, Taken(isError, v, e.children), Close(e.name)).counts[k] == TallyLevel(w, [e], k)
    ensures Feed1(isError, Taken(isError, v, e.children), Close(e.name)).nonLeaf[k] == NonLeafLevel(w, [e], k)
  {
    var u := Taken(isError, v, e.children);
    ClosedStack(isError, w, e);
    LevelsOfElement(w, v, e, k);
    assert u.counts[k] == TallyLevel(v, e.children, k);
    assert u.nonLeaf[k] == NonLeafLevel(v, e.children, k);
  }

  lemma ClosedTaken(isError: NameTest, w: Walk, v: Walk, e: Element)
    requires ThreeLevels(w) && v == Feed1(isError, w, Open(e.name, false))
    ensures Feed1(isError, Taken(isError, v, e.children), Close(e.name)) == Taken(isError, w, [e])
  {
    var u := Taken(isError, v, e.children);
    ClosedStack(isError, w, e);
    ErrorOfElement(isError, e, |w.stack|);
    ClosedLevel(isError, w, v, e, 0);
    ClosedLevel(isError, w, v, e, 1);
    ClosedLevel(isError, w, v, e, 2);
    assert u.stack[..|u.stack| - 1] == MarkParent(w.stack);
  }

  lemma {:induction false} StreamAllTaken(isError: NameTest, w: Walk, es: seq<Element>)
    requires ThreeLevels(w)
    ensures Feed(isError, w, StreamAll(es)) == Taken(isError, w, es)
    decreases es, 1
  {
    if es == [] {
      TakenNothing(isError, w);
    } else {
      FeedConcat(isError, w, Stream(es[0]), StreamAll(es[1..]));
      StreamTaken(isError, w, es[0]);
      StreamAllTaken(isError, Taken(isError, w, [es[0]]), es[1..]);
      TakenConcat(isError, w, es[0], es[1..]);
      assert [es[0]] + es[1..] == es;
    }
  }

  // ---------------------------------------------------------------- what the counts say of the tree

  /** How many of `es` carry the name. */
  function Occurrences(es: seq<Element>, name: string): nat {
    if es == [] then 0 else (if es[0].name == name then 1 else 0) + Occurrences(es[1..], name)
  }

  function Lookup(counts: Counts, name: string): nat {
    if counts == [] then 0 else if counts[0].name == name then counts[0].count else Lookup(counts[1..], name)
  }

  function Total(counts: Counts): nat {
    if counts == [] then 0 else counts[0].count + Total(counts[1..])
  }

  /** Every count is positive and no name has two entries. */
  predicate Clean(counts: Counts) {
    counts == [] || (counts[0].count >= 1 && Lookup(counts[1..], counts[0].name) == 0 && Clean(counts[1..]))
  }

  lemma {:induction false} BumpLookup(counts: Counts, name: string, other: string)
    ensures Lookup(Bump(counts, name), other) == Lookup(counts, other) + if name == other then 1 else 0
    ensures Total(Bump(counts, name)) == Total(counts) + 1
  {
    if counts == [] {
      assert [NameCount(name, 1)][1..] == [];
    } else {
      BumpLookup(counts[1..], name, other);
      assert ([counts[0]] + Bump(counts[1..], name))[1..] == Bump(counts[1..], name);
    }
  }

  lemma {:induction false} BumpClean(counts: Counts, name: string)
    requires Clean(counts)
    ensures Clean(Bump(counts, name))
  {
    if counts == [] {
      assert [NameCount(name, 1)][1..] == [];
    } else {
      BumpClean(counts[1..], name);
      BumpLookup(counts[1..], name, counts[0].name);
      assert ([counts[0]] + Bump(counts[1..], name))[1..] == Bump(counts[1..], name);
    }
  }

  /** A level's counts give each name's number of elements, and nothing else. */
  lemma {:induction false} TallyCounts(counts: Counts, es: seq<Element>, name: string)
    requires Clean(counts)
    ensures Clean(Tally(counts, es))
    ensures Lookup(Tally(counts, es), name) == Lookup(counts, name) + Occurrences(es, name)
    ensures Total(Tally(counts, es)) == Total(counts) + |es|
    decreases |es|
  {
    if es != [] {
      BumpClean(counts, es[0].name);
      BumpLookup(counts, es[0].name, name);
      TallyCounts(Bump(counts, es[0].name), es[1..], name);
    }
  }

  // ---------------------------------------------------------------- the record count

  datatype Records = Records(name: Option<string>, count: nat)

  datatype Analysis = Analysis(root: Option<string>, records: Records, errorSignal: bool)

  const NO_RECORDS := Records(None, 0)

  function BestOf(isError: NameTest, counts: Counts, nonLeaf: set<string>, best: Records): Records {
    if counts == [] then best
    else
      var c := counts[0];
      BestOf(isError, counts[1..], nonLeaf,
             if c.name in nonLeaf && !isError(c.name) && c.count > best.count then Records(Some(c.name), c.count) else best)
  }

  predicate SingleWrapper(w: Walk)
    requires ThreeLevels(w)
  {
    |w.counts[0]| == 1 && w.counts[0][0].count == 1
  }

  function Analyze(isError: NameTest, w: Walk): Analysis
    requires ThreeLevels(w)
  {
    var records := BestOf(isError, w.counts[if SingleWrapper(w) then 1 else 0], w.nonLeaf[if SingleWrapper(w) then 1 else 0],
        NO_RECORDS);
    Analysis(w.root, records, w.errorSignal && records.count == 0)
  }

  /** The most frequent name among those with children that do not speak of an error. */
  method RecordCountAt(isError: NameTest, counts: Counts, nonLeaf: set<string>) returns (best: Records)
    ensures best == BestOf(isError, counts, nonLeaf, NO_RECORDS)
  {
    best := NO_RECORDS;
    for i := 0 to |counts|
      invariant BestOf(isError, counts[i..], nonLeaf, best) == BestOf(isError, counts, nonLeaf, NO_RECORDS)
    {
      if counts[i].name in nonLeaf && !isError(counts[i].name) && counts[i].count > best.count {
        best := Records(Some(counts[i].name), counts[i].count);
      }
      assert counts[i..][1..] == counts[i + 1..];
    }
  }

  lemma {:induction false} BestCovers(isError: NameTest, counts: Counts, nonLeaf: set<string>, best: Records)
    ensures var r := BestOf(isError, counts, nonLeaf, best); r == best || (r.name.Some? && r.count > best.count)
  {
    if counts != [] {
      var c := counts[0];
      BestCovers(isError, counts[1..], nonLeaf,
                 if c.name in nonLeaf && !isError(c.name) && c.count > best.count then Records(Some(c.name), c.count) else best);
    }
  }

  lemma {:induction false} BestIsMost(isError: NameTest, counts: Counts, nonLeaf: set<string>, best: Records, name: string)
    requires Clean(counts)
    ensures
      var r := BestOf(isError, counts, nonLeaf, best);
      && r.count >= best.count
      && (name in nonLeaf && !isError(name) ==> Lookup(counts, name) <= r.count)
      && (r == best || (r.name.Some? && r.name.value in nonLeaf && !isError(r.name.value)
          && r.count == Lookup(counts, r.name.value) >= 1))
  {
    if counts != [] {
      var c := counts[0];
      BestIsMost(isError, counts[1..], nonLeaf,
                 if c.name in nonLeaf && !isError(c.name) && c.count > best.count then Records(Some(c.name), c.count)
                     else best, name);
    }
  }

  /** The count at `p` was taken: it beats `best`, and no qualified count before it is as high. */
  ghost predicate TakenAt(isError: NameTest, counts: Counts, nonLeaf: set<string>, r: Records, p: nat) {
    && p < |counts| && r == Records(Some(counts[p].name), counts[p].count)
    && forall q :: 0 <= q < p && counts[q].name in nonLeaf && !isError(counts[q].name) ==> counts[q].count < r.count
  }

  lemma {:induction false} BestIsFirst(isError: NameTest, counts: Counts, nonLeaf: set<string>, best: Records)
    ensures var r := BestOf(isError, counts, nonLeaf, best);
            r == best || (r.count > best.count && exists p :: TakenAt(isError, counts, nonLeaf, r, p))
  {
    if counts != [] {
      var c, r := counts[0], BestOf(isError, counts, nonLeaf, best);
      var next := if c.name in nonLeaf && !isError(c.name) && c.count > best.count then Records(Some(c.name), c.count) else best;
      BestIsFirst(isError, counts[1..], nonLeaf, next);
      if r != next {
        var p: nat :| TakenAt(isError, counts[1..], nonLeaf, r, p);
        assert forall q :: 0 < q < |counts| ==> counts[q] == counts[1..][q - 1];
        assert TakenAt(isError, counts, nonLeaf, r, p + 1);
      } else if r != best {
        assert TakenAt(isError, counts, nonLeaf, r, 0);
      }
    }
  }

  /** A name once met keeps its place in the counts. */
  lemma {:induction false} PlacesKept(counts: Counts, es: seq<Element>)
    ensures |counts| <= |Tally(counts, es)|
    ensures forall k :: 0 <= k < |counts| ==> Tally(counts, es)[k].name == counts[k].name
    decreases |es|
  {
    if es != [] {
      BumpKeepsPlaces(counts, es[0].name);
      PlacesKept(Bump(counts, es[0].name), es[1..]);
    }
  }

  lemma {:induction false} BumpKeepsPlaces(counts: Counts, name: string)
    ensures |counts| <= |Bump(counts, name)|
    ensures forall k :: 0 <= k < |counts| ==> Bump(counts, name)[k].name == counts[k].name
  {
    if counts != [] {
      BumpKeepsPlaces(counts[1..], name);
    }
  }

  lemma {:induction false} PlaceOf(counts: Counts, name: string)
    requires Clean(counts)
    ensures (exists k :: 0 <= k < |counts| && counts[k].name == name) <==> Lookup(counts, name) > 0
    ensures forall k :: 0 <= k < |counts| && counts[k].name == name ==> counts[k].count == Lookup(counts, name)
  {
    if counts != [] {
      PlaceOf(counts[1..], name);
      PlaceOf(counts[1..], counts[0].name);
      assert forall k :: 0 < k < |counts| ==> counts[k] == counts[1..][k - 1];
    }
  }

  lemma {:induction false} OccurrencesPositive(es: seq<Element>, name: string)
    ensures Occurrences(es, name) > 0 <==> exists e :: e in es && e.name == name
  {
    if es != [] {
      OccurrencesPositive(es[1..], name);
      assert forall e :: e in es <==> e == es[0] || e in es[1..];
    }
  }

  /** A name met before `i` stands before a name first met at `i`. */
  lemma EarlierPlace(es: seq<Element>, i: nat, name: string, p: nat)
    requires i < |es| && Occurrences(es[..i], name) > 0 && Occurrences(es[..i], es[i].name) == 0
    requires p < |Tally([], es)| && Tally([], es)[p].name == es[i].name
    ensures exists q :: 0 <= q < p && Tally([], es)[q].name == name
  {
    var before := Tally([], es[..i]);
    TallyCounts([], es[..i], name);
    TallyCounts([], es[..i], es[i].name);
    PlaceOf(before, name);
    PlaceOf(before, es[i].name);
    TallyConcat([], es[..i], es[i..]);
    assert es[..i] + es[i..] == es;
    PlacesKept(before, es[i..]);
    var q :| 0 <= q < |before| && before[q].name == name;
    assert Tally([], es)[q].name == name;
  }

  /** A name under which `es` holds records: some element of that name has children. */
  predicate RecordName(isError: NameTest, es: seq<Element>, name: string) {
    !isError(name) && exists e :: e in es && e.children != [] && e.name == name
  }

  /** `r` is the largest number of elements of `es` that share a record name, with such a name. */
  ghost predicate MostRecords(isError: NameTest, es: seq<Element>, r: Records) {
    && (forall name :: RecordName(isError, es, name) ==> Occurrences(es, name) <= r.count)
    && (r.name.Some? ==> RecordName(isError, es, r.name.value) && Occurrences(es, r.name.value) == r.count >= 1)
    && (r.name.None? ==> r.count == 0)
  }

  /** Of the names with that many elements, `r` has the one met first. */
  ghost predicate FirstOfMost(isError: NameTest, es: seq<Element>, r: Records) {
    r.name.Some? ==> exists i :: MetFirst(isError, es, r, i)
  }

  ghost predicate MetFirst(isError: NameTest, es: seq<Element>, r: Records, i: nat) {
    && r.name.Some? && i < |es| && es[i].name == r.name.value
    && forall j :: 0 <= j < i ==> !(RecordName(isError, es, es[j].name) && Occurrences(es, es[j].name) == r.count)
  }

  lemma {:induction false} FirstOfName(es: seq<Element>, name: string) returns (i: nat)
    requires Occurrences(es, name) > 0
    ensures i < |es| && es[i].name == name && Occurrences(es[..i], name) == 0
  {
    if es[0].name == name {
      i := 0;
    } else {
      var k := FirstOfName(es[1..], name);
      i := k + 1;
      assert es[..i][1..] == es[1..][..k];
    }
  }

  lemma LevelFirst(isError: NameTest, es: seq<Element>)
    ensures FirstOfMost(isError, es, BestOf(isError, Tally([], es), NonLeafNames(es), NO_RECORDS))
  {
    var counts, r := Tally([], es), BestOf(isError, Tally([], es), NonLeafNames(es), NO_RECORDS);
    BestIsFirst(isError, counts, NonLeafNames(es), NO_RECORDS);
    if r.name.Some? {
      var p: nat :| TakenAt(isError, counts, NonLeafNames(es), r, p);
      TallyCounts([], es, r.name.value);
      PlaceOf(counts, r.name.value);
      var i := FirstOfName(es, r.name.value);
      forall j | 0 <= j < i
        ensures !(RecordName(isError, es, es[j].name) && Occurrences(es, es[j].name) == r.count)
      {
        NotTakenBefore(isError, es, r, p, i, j);
      }
      assert MetFirst(isError, es, r, i);
    }
  }

  lemma NotTakenBefore(isError: NameTest, es: seq<Element>, r: Records, p: nat, i: nat, j: nat)
    requires j < i < |es| && r.name == Some(es[i].name) && Occurrences(es[..i], es[i].name) == 0
    requires TakenAt(isError, Tally([], es), NonLeafNames(es), r, p)
    ensures !(RecordName(isError, es, es[j].name) && Occurrences(es, es[j].name) == r.count)
  {
    var counts, name := Tally([], es), es[j].name;
    assert es[j] in es[..i];
    OccurrencesPositive(es[..i], name);
    EarlierPlace(es, i, name, p);
    var q :| 0 <= q < p && counts[q].name == name;
    TallyCounts([], es, name);
    PlaceOf(counts, name);
  }

  lemma LevelRecords(isError: NameTest, es: seq<Element>)
    ensures MostRecords(isError, es, BestOf(isError, Tally([], es), NonLeafNames(es), NO_RECORDS))
  {
    TallyCounts([], es, "");
    var r := BestOf(isError, Tally([], es), NonLeafNames(es), NO_RECORDS);
    forall name
      ensures name in NonLeafNames(es) <==> exists e :: e in es && e.children != [] && e.name == name
      ensures RecordName(isError, es, name) ==> Occurrences(es, name) <= r.count
      ensures Lookup(Tally([], es), name) == Occurrences(es, name)
      ensures r == NO_RECORDS || (r.name.Some? && r.name.value in NonLeafNames(es) && !isError(r.name.value)
                                  && r.count == Lookup(Tally([], es), r.name.value) >= 1)
    {
      TallyCounts([], es, name);
      BestIsMost(isError, Tally([], es), NonLeafNames(es), NO_RECORDS, name);
    }
    BestIsMost(isError, Tally([], es), NonLeafNames(es), NO_RECORDS, "");
  }

  /** The wrapper test on counts is a test on the tree: the root has exactly one child. */
  lemma WrapperMeansOneChild(es: seq<Element>)
    ensures (|Tally([], es)| == 1 && Tally([], es)[0].count == 1) <==> |es| == 1
  {
    var t := Tally([], es);
    TallyCounts([], es, "");
    if |t| == 1 {
      assert Total(t) == t[0].count + Total(t[1..]);
    }
    if |es| == 1 {
      assert es[1..] == [];
      assert t == [NameCount(es[0].name, 1)];
    }
  }

  /** Where records are looked for: below the root, or below its only child. */
  function RecordLevel(e: Element): seq<Element> {
    if |e.children| == 1 then e.children[0].children else e.children
  }

  /** The analysis tells the truth about the tree: root, records and error signal. */
  ghost predicate Describes(isError: NameTest, a: Analysis, e: Element) {
    && a.root == Some(e.name)
    && MostRecords(isError, RecordLevel(e), a.records) && FirstOfMost(isError, RecordLevel(e), a.records)
    && (a.errorSignal <==> ErrorWithin(isError, [e], 0) && a.records.count == 0)
  }

  /** What the analysis of a well-formed document says of its tree. */
  lemma AnalysisOfTree(isError: NameTest, e: Element)
    ensures Describes(isError, Analyze(isError, Feed(isError, START, Stream(e))), e)
  {
    StreamTaken(isError, START, e);
    AtAllOne(e, 1);
    AtAllOne(e, 2);
    LevelsOfChildren(e);
    LevelRecords(isError, e.children);
    LevelRecords(isError, At(e, 2));
    LevelFirst(isError, e.children);
    LevelFirst(isError, At(e, 2));
    WrapperMeansOneChild(e.children);
    assert {} + NonLeafNames(e.children) == NonLeafNames(e.children);
    assert {} + NonLeafNames(At(e, 2)) == NonLeafNames(At(e, 2));
  }

  lemma {:induction false} AtAllZero(es: seq<Element>)
    ensures AtAll(es, 0) == es
    decreases |es|
  {
    if es != [] {
      AtAllZero(es[1..]);
    }
  }

  lemma LevelsOfChildren(e: Element)
    ensures At(e, 1) == e.children
    ensures |e.children| == 1 ==> At(e, 2) == e.children[0].children
  {
    AtAllZero(e.children);
    if |e.children| == 1 {
      var child := e.children[0];
      assert e.children == [child];
      AtAllOne(child, 1);
      AtAllZero(child.children);
    }
  }
}
