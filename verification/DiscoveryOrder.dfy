/** Which container the search finds: places in the graph as paths of entry positions, shorter ones first and then in
    dictionary order, and what the search keeps in terms of them. */
module DiscoveryOrder {
  import opened Wrappers
  import opened ItemGraph

  // ---------------------------------------------------------------- paths and their order

  type Path = seq<nat>

  /** At the first position where they differ, `p` has the earlier entry. */
  predicate Earlier(p: Path, q: Path) {
    |p| == |q| && exists k :: 0 <= k < |p| && p[k] < q[k] && p[..k] == q[..k]
  }

  /** Shorter, or as long and earlier. */
  predicate Before(p: Path, q: Path) {
    |p| < |q| || Earlier(p, q)
  }

  predicate NotAfter(p: Path, q: Path) {
    p == q || Before(p, q)
  }

  /** What stands at the path: each position is that of an entry. */
  function At(h: Heap, root: Value, path: Path): Option<Value> {
    if path == [] then Some(root)
    else
      var front, last := path[..|path| - 1], path[|path| - 1];
      match At(h, root, front)
      case Some(Ref(id)) => if id in h && last < |h[id].entries| then Some(h[id].entries[last].value) else None
      case _ => None
  }

  lemma EarlierTransitive(p: Path, q: Path, r: Path)
    requires Earlier(p, q) && Earlier(q, r)
    ensures Earlier(p, r)
  {
    var k :| 0 <= k < |p| && p[k] < q[k] && p[..k] == q[..k];
    var j :| 0 <= j < |q| && q[j] < r[j] && q[..j] == r[..j];
    var m := if k < j then k else j;
    assert p[..m] == p[..k][..m] && q[..m] == q[..k][..m] == q[..j][..m] && r[..m] == r[..j][..m];
    assert k < j ==> q[..j][k] == r[..j][k];
    assert j < k ==> p[..k][j] == q[..k][j];
    assert p[m] < r[m] && p[..m] == r[..m];
  }

  lemma Asymmetric(p: Path, q: Path)
    requires Before(p, q)
    ensures !Before(q, p) && p != q
  {
    if Earlier(p, q) && Earlier(q, p) {
      EarlierTransitive(p, q, p);
    }
  }

  lemma Transitive(p: Path, q: Path, r: Path)
    requires Before(p, q) && Before(q, r)
    ensures Before(p, r)
  {
    if |p| == |q| == |r| {
      EarlierTransitive(p, q, r);
    }
  }

  lemma {:induction false} OneIsEarlier(p: Path, q: Path)
    requires |p| == |q| && p != q
    ensures Earlier(p, q) || Earlier(q, p)
  {
    var front, n := p[..|p| - 1], |p| - 1;
    assert p == p[..n] + [p[n]] && q == q[..n] + [q[n]];
    if p[..n] == q[..n] {
      assert p[n] != q[n];
    } else {
      OneIsEarlier(p[..n], q[..n]);
      if Earlier(p[..n], q[..n]) {
        EarlierOnward(p[..n], q[..n], p[n], q[n]);
      } else {
        EarlierOnward(q[..n], p[..n], q[n], p[n]);
      }
    }
  }

  lemma EarlierOnward(p: Path, q: Path, i: nat, j: nat)
    requires Earlier(p, q)
    ensures Earlier(p + [i], q + [j])
  {
    var k :| 0 <= k < |p| && p[k] < q[k] && p[..k] == q[..k];
    assert (p + [i])[..k] == p[..k] && (q + [j])[..k] == q[..k];
    assert (p + [i])[k] == p[k] && (q + [j])[k] == q[k];
  }

  lemma OneIsBefore(p: Path, q: Path)
    ensures p == q || Before(p, q) || Before(q, p)
  {
    if |p| == |q| && p != q {
      OneIsEarlier(p, q);
    }
  }

  /** Going on from an earlier place leads to an earlier place. */
  lemma BeforeOnward(p: Path, q: Path, i: nat, j: nat)
    requires Before(p, q)
    ensures Before(p + [i], q + [j])
  {
    if Earlier(p, q) {
      EarlierOnward(p, q, i, j);
    }
  }

  lemma SiblingsInOrder(p: Path, i: nat, j: nat)
    requires i < j
    ensures Before(p + [i], p + [j])
  {
    assert (p + [i])[..|p|] == p == (p + [j])[..|p|];
    assert (p + [i])[|p|] == i && (p + [j])[|p|] == j;
  }

  // ---------------------------------------------------------------- what the search keeps

  /** `id` has been visited by no later path, or waits in the queue by one. */
  ghost predicate Known(known: map<nat, Path>, queue: seq<Job>, paths: seq<Path>, id: nat, path: Path) {
    (id in known && NotAfter(known[id], path))
    || exists i :: 0 <= i < |queue| && i < |paths| && queue[i].value == Ref(id) && NotAfter(paths[i], path)
  }

  /** Each queue entry stands at its path, and the paths are in order. */
  ghost predicate InOrder(h: Heap, root: Value, maxDepth: nat, queue: seq<Job>, paths: seq<Path>) {
    && |paths| == |queue|
    && (forall i :: 0 <= i < |queue| ==>
          |paths[i]| == queue[i].depth && queue[i].depth <= maxDepth && At(h, root, paths[i]) == Some(queue[i].value))
    && (forall i, j :: 0 <= i < j < |queue| ==> Before(paths[i], paths[j]))
    && (forall i :: 0 <= i < |queue| && paths[i] != [] ==> Before(paths[i][..|paths[i]| - 1], paths[0]))
  }

  /** Whatever was visited was visited before all that waits, and is no container. */
  ghost predicate VisitedFirst(h: Heap, known: map<nat, Path>, paths: seq<Path>) {
    && (forall id :: id in known ==> id in h && !IsContainer(h, Ref(id)))
    && (forall id, i :: id in known && 0 <= i < |paths| ==> Before(known[id], paths[i]))
  }

  /** The root is known, and so is every entry of a visited object above the bound, by that entry's path or an earlier one. */
  ghost predicate EntriesKnown(h: Heap, root: Value, maxDepth: nat, known: map<nat, Path>, queue: seq<Job>, paths: seq<Path>) {
    && (root.Ref? ==> Known(known, queue, paths, root.id, []))
    && (forall id, k: nat {:trigger known[id], h[id].entries[k]} ::
          id in known && id in h && |known[id]| < maxDepth && k < |h[id].entries| && h[id].entries[k].value.Ref? ==>
            Known(known, queue, paths, h[id].entries[k].value.id, known[id] + [k]))
  }

  ghost predicate Ranked(h: Heap, root: Value, maxDepth: nat, known: map<nat, Path>, queue: seq<Job>, paths: seq<Path>) {
    && InOrder(h, root, maxDepth, queue, paths)
    && VisitedFirst(h, known, paths)
    && EntriesKnown(h, root, maxDepth, known, queue, paths)
  }

  /** Whatever stands at a path before all that waits has been visited by that path or an earlier one. */
  lemma {:induction false} VisitedBefore(h: Heap, root: Value, maxDepth: nat, known: map<nat, Path>, queue: seq<Job>,
      paths: seq<Path>, id: nat, path: Path)
    requires Ranked(h, root, maxDepth, known, queue, paths) && |path| <= maxDepth && At(h, root, path) == Some(Ref(id))
    requires queue == [] || Before(path, paths[0])
    ensures id in known && NotAfter(known[id], path)
    decreases |path|
  {
    WaitingIsLater(h, root, maxDepth, queue, paths, path);
    if path == [] {
      assert Known(known, queue, paths, id, []);
    } else {
      var front, last := path[..|path| - 1], path[|path| - 1];
      assert path == front + [last];
      var parent := At(h, root, front).value.id;
      VisitedBefore(h, root, maxDepth, known, queue, paths, parent, front);
      assert h[parent].entries[last].value == Ref(id);
      assert Known(known, queue, paths, id, known[parent] + [last]);
      if known[parent] != front {
        BeforeOnward(known[parent], front, last, last);
      }
      KnownEarlier(known, queue, paths, id, known[parent] + [last], path);
    }
  }

  lemma KnownEarlier(known: map<nat, Path>, queue: seq<Job>, paths: seq<Path>, id: nat, path: Path, later: Path)
    requires Known(known, queue, paths, id, path) && NotAfter(path, later)
    ensures Known(known, queue, paths, id, later)
  {
    if id in known && NotAfter(known[id], path) {
      NotAfterTransitive(known[id], path, later);
    } else {
      var i :| 0 <= i < |queue| && i < |paths| && queue[i].value == Ref(id) && NotAfter(paths[i], path);
      NotAfterTransitive(paths[i], path, later);
    }
  }

  lemma NotAfterTransitive(p: Path, q: Path, r: Path)
    requires NotAfter(p, q) && NotAfter(q, r)
    ensures NotAfter(p, r)
  {
    if Before(p, q) && Before(q, r) {
      Transitive(p, q, r);
    }
  }

  lemma WaitingIsLater(h: Heap, root: Value, maxDepth: nat, queue: seq<Job>, paths: seq<Path>, path: Path)
    requires InOrder(h, root, maxDepth, queue, paths) && (queue == [] || Before(path, paths[0]))
    ensures forall i :: 0 <= i < |queue| ==> !NotAfter(paths[i], path)
  {
    forall i | 0 <= i < |queue|
      ensures !NotAfter(paths[i], path)
    {
      if i > 0 {
        Transitive(path, paths[0], paths[i]);
      }
      Asymmetric(path, paths[i]);
    }
  }

  /** The container stands at this path, and none within the bound stands at an earlier one. */
  ghost predicate FirstPlace(h: Heap, root: Value, maxDepth: nat, found: Value, path: Path) {
    && At(h, root, path) == Some(found) && IsContainer(h, found) && |path| <= maxDepth
    && forall other: Path :: |other| <= maxDepth && At(h, root, other).Some? && IsContainer(h, At(h, root, other).value) ==>
         NotAfter(path, other)
  }

  /** No container stands at a path before the front of the queue. */
  lemma FrontIsFirst(h: Heap, root: Value, maxDepth: nat, known: map<nat, Path>, queue: seq<Job>, paths: seq<Path>)
    requires Ranked(h, root, maxDepth, known, queue, paths) && queue != [] && IsContainer(h, queue[0].value)
    ensures FirstPlace(h, root, maxDepth, queue[0].value, paths[0]) && |paths[0]| == queue[0].depth
  {
    forall path: Path | |path| <= maxDepth && At(h, root, path).Some? && IsContainer(h, At(h, root, path).value)
      ensures NotAfter(paths[0], path)
    {
      OneIsBefore(paths[0], path);
      if Before(path, paths[0]) {
        VisitedBefore(h, root, maxDepth, known, queue, paths, At(h, root, path).value.id, path);
      }
    }
  }

  lemma StartRanked(h: Heap, root: Value, maxDepth: nat)
    ensures Ranked(h, root, maxDepth, map[], [Job(root, 0)], [[]])
  {
    var queue, paths: seq<Path> := [Job(root, 0)], [[]];
    assert queue[0].value == root && paths[0] == [];
  }

  // ---------------------------------------------------------------- dropping and visiting the front

  lemma DropKnown(known: map<nat, Path>, queue: seq<Job>, paths: seq<Path>, id: nat, path: Path)
    requires queue != [] && |paths| == |queue| && Known(known, queue, paths, id, path)
    requires queue[0].value.Scalar? || (queue[0].value.id in known && Before(known[queue[0].value.id], paths[0]))
    ensures Known(known, queue[1..], paths[1..], id, path)
  {
    if !(id in known && NotAfter(known[id], path)) {
      var i :| 0 <= i < |queue| && queue[i].value == Ref(id) && NotAfter(paths[i], path);
      if i == 0 {
        NotAfterTransitive(known[id], paths[0], path);
      }
      assert queue[1..][i - 1] == queue[i] && paths[1..][i - 1] == paths[i];
    }
  }

  lemma TailInOrder(h: Heap, root: Value, maxDepth: nat, queue: seq<Job>, paths: seq<Path>)
    requires InOrder(h, root, maxDepth, queue, paths) && queue != []
    ensures InOrder(h, root, maxDepth, queue[1..], paths[1..])
  {
    var q, ps := queue[1..], paths[1..];
    forall i | 0 <= i < |q| && ps[i] != []
      ensures Before(ps[i][..|ps[i]| - 1], ps[0])
    {
      assert ps[i] == paths[i + 1] && ps[0] == paths[1];
      Transitive(ps[i][..|ps[i]| - 1], paths[0], paths[1]);
    }
  }

  lemma DropRanked(h: Heap, root: Value, maxDepth: nat, known: map<nat, Path>, queue: seq<Job>, paths: seq<Path>)
    requires Ranked(h, root, maxDepth, known, queue, paths) && queue != []
    requires queue[0].value.Scalar? || queue[0].value.id in known
    ensures Ranked(h, root, maxDepth, known, queue[1..], paths[1..])
  {
    TailInOrder(h, root, maxDepth, queue, paths);
    forall id: nat, path: Path | Known(known, queue, paths, id, path)
      ensures Known(known, queue[1..], paths[1..], id, path)
    {
      DropKnown(known, queue, paths, id, path);
    }
  }

  /** The paths of an object's queued entries, counting positions from `from`. */
  function ChildPaths(entries: seq<Entry>, path: Path, from: nat): seq<Path> {
    if entries == [] then []
    else (if entries[0].value.Ref? then [path + [from]] else []) + ChildPaths(entries[1..], path, from + 1)
  }

  lemma {:induction false} ChildAt(entries: seq<Entry>, path: Path, from: nat, depth: nat, i: nat) returns (k: nat)
    requires i < |Jobs(entries, depth)|
    ensures |ChildPaths(entries, path, from)| == |Jobs(entries, depth)|
    ensures k < |entries| && entries[k].value.Ref? && Jobs(entries, depth)[i] == Job(entries[k].value, depth)
    ensures ChildPaths(entries, path, from)[i] == path + [from + k]
  {
    SameCount(entries, path, from, depth);
    if entries[0].value.Ref? && i == 0 {
      k := 0;
    } else {
      k := ChildAt(entries[1..], path, from + 1, depth, if entries[0].value.Ref? then i - 1 else i);
      k := k + 1;
    }
  }

  lemma {:induction false} SameCount(entries: seq<Entry>, path: Path, from: nat, depth: nat)
    ensures |ChildPaths(entries, path, from)| == |Jobs(entries, depth)|
  {
    if entries != [] {
      SameCount(entries[1..], path, from + 1, depth);
    }
  }

  lemma {:induction false} ChildOf(entries: seq<Entry>, path: Path, from: nat, depth: nat, k: nat) returns (i: nat)
    requires k < |entries| && entries[k].value.Ref?
    ensures |ChildPaths(entries, path, from)| == |Jobs(entries, depth)| > i
    ensures Jobs(entries, depth)[i] == Job(entries[k].value, depth) && ChildPaths(entries, path, from)[i] == path + [from + k]
  {
    SameCount(entries, path, from, depth);
    if k == 0 {
      i := 0;
    } else {
      i := ChildOf(entries[1..], path, from + 1, depth, k - 1);
      i := if entries[0].value.Ref? then i + 1 else i;
    }
  }

  lemma {:induction false} ChildrenAscend(entries: seq<Entry>, path: Path, from: nat, depth: nat, i: nat, j: nat)
    requires i < j < |ChildPaths(entries, path, from)|
    ensures Before(ChildPaths(entries, path, from)[i], ChildPaths(entries, path, from)[j])
  {
    SameCount(entries[1..], path, from + 1, depth);
    var rest := ChildPaths(entries[1..], path, from + 1);
    if !entries[0].value.Ref? {
      ChildrenAscend(entries[1..], path, from + 1, depth, i, j);
    } else if i > 0 {
      ChildrenAscend(entries[1..], path, from + 1, depth, i - 1, j - 1);
    } else {
      var k := ChildAt(entries[1..], path, from + 1, depth, j - 1);
      SiblingsInOrder(path, from, from + 1 + k);
    }
  }

  function PathsOf(h: Heap, maxDepth: nat, job: Job, path: Path): seq<Path>
    requires job.value.Ref? && job.value.id in h
  {
    ChildPaths(if job.depth >= maxDepth then [] else h[job.value.id].entries, path, 0)
  }

  /** What a queued entry of the front's object is: it stands one position behind the front. */
  lemma QueuedChild(h: Heap, root: Value, maxDepth: nat, job: Job, path: Path, i: nat)
    requires job.value.Ref? && job.value.id in h && At(h, root, path) == Some(job.value) && |path| == job.depth
    requires i < |Expansion(h, maxDepth, job)|
    ensures |PathsOf(h, maxDepth, job, path)| == |Expansion(h, maxDepth, job)|
    ensures var child, at := Expansion(h, maxDepth, job)[i], PathsOf(h, maxDepth, job, path)[i];
            && |at| == child.depth == |path| + 1 && child.depth <= maxDepth && at[..|path|] == path
            && At(h, root, at) == Some(child.value)
  {
    var entries := if job.depth >= maxDepth then [] else h[job.value.id].entries;
    var k := ChildAt(entries, path, 0, job.depth + 1, i);
    assert (path + [0 + k])[..|path|] == path;
  }

  lemma WaitingBeforeChildren(p: Path, q: Path, front: Path, i: nat)
    requires Before(front, p) && (p != [] ==> Before(p[..|p| - 1], front)) && q == front + [i]
    ensures Before(p, q)
  {
    if p != [] {
      assert p == p[..|p| - 1] + [p[|p| - 1]];
      BeforeOnward(p[..|p| - 1], front, p[|p| - 1], i);
    }
  }

  /** The queue after the front was visited: what waited behind it, then its entries. */
  ghost predicate Visits(h: Heap, maxDepth: nat, queue: seq<Job>, paths: seq<Path>, jobs: seq<Job>, added: seq<Path>) {
    && queue != [] && |paths| == |queue| && queue[0].value.Ref? && queue[0].value.id in h
    && jobs == Expansion(h, maxDepth, queue[0]) && added == PathsOf(h, maxDepth, queue[0], paths[0])
  }

  /** Each entry of the new queue, with its path: it stands where its path says, behind the visited object. */
  lemma EntryAfterVisit(h: Heap, root: Value, maxDepth: nat, queue: seq<Job>, paths: seq<Path>, jobs: seq<Job>,
      added: seq<Path>, i: nat)
    requires InOrder(h, root, maxDepth, queue, paths) && Visits(h, maxDepth, queue, paths, jobs, added)
    requires i < |queue| - 1 + |jobs|
    ensures |added| == |jobs|
    ensures var job, path := (queue[1..] + jobs)[i], (paths[1..] + added)[i];
            && |path| == job.depth && job.depth <= maxDepth && At(h, root, path) == Some(job.value)
            && Before(paths[0], path) && (path != [] ==> NotAfter(path[..|path| - 1], paths[0]))
            && (i >= |queue| - 1 ==> |path| == |paths[0]| + 1 && path[..|path| - 1] == paths[0])
  {
    SameCount(if queue[0].depth >= maxDepth then [] else h[queue[0].value.id].entries, paths[0], 0, queue[0].depth + 1);
    if i < |queue| - 1 {
      assert (queue[1..] + jobs)[i] == queue[i + 1] && (paths[1..] + added)[i] == paths[i + 1];
    } else {
      QueuedChild(h, root, maxDepth, queue[0], paths[0], i - (|queue| - 1));
      assert (queue[1..] + jobs)[i] == jobs[i - (|queue| - 1)] && (paths[1..] + added)[i] == added[i - (|queue| - 1)];
    }
  }

  lemma PairAfterVisit(h: Heap, root: Value, maxDepth: nat, queue: seq<Job>, paths: seq<Path>, jobs: seq<Job>,
      added: seq<Path>, i: nat, j: nat)
    requires InOrder(h, root, maxDepth, queue, paths) && Visits(h, maxDepth, queue, paths, jobs, added)
    requires |added| == |jobs| && i < j < |queue| - 1 + |jobs|
    ensures Before((paths[1..] + added)[i], (paths[1..] + added)[j])
  {
    var all := paths[1..] + added;
    EntryAfterVisit(h, root, maxDepth, queue, paths, jobs, added, i);
    EntryAfterVisit(h, root, maxDepth, queue, paths, jobs, added, j);
    if j < |queue| - 1 {
      assert all[i] == paths[i + 1] && all[j] == paths[j + 1];
    } else if i < |queue| - 1 {
      assert all[i] == paths[i + 1];
      assert all[j] == paths[0] + [all[j][|paths[0]|]];
      WaitingBeforeChildren(all[i], all[j], paths[0], all[j][|paths[0]|]);
    } else {
      var entries := if queue[0].depth >= maxDepth then [] else h[queue[0].value.id].entries;
      var n := |queue| - 1;
      assert all[i] == added[i - n] && all[j] == added[j - n];
      ChildrenAscend(entries, paths[0], 0, queue[0].depth + 1, i - n, j - n);
    }
  }

  lemma VisitInOrder(h: Heap, root: Value, maxDepth: nat, queue: seq<Job>, paths: seq<Path>, jobs: seq<Job>, added: seq<Path>)
    requires InOrder(h, root, maxDepth, queue, paths) && Visits(h, maxDepth, queue, paths, jobs, added)
    ensures InOrder(h, root, maxDepth, queue[1..] + jobs, paths[1..] + added)
    ensures forall i :: 0 <= i < |paths[1..] + added| ==> Before(paths[0], (paths[1..] + added)[i])
  {
    var q, ps := queue[1..] + jobs, paths[1..] + added;
    SameCount(if queue[0].depth >= maxDepth then [] else h[queue[0].value.id].entries, paths[0], 0, queue[0].depth + 1);
    forall i | 0 <= i < |q|
      ensures |ps[i]| == q[i].depth && q[i].depth <= maxDepth && At(h, root, ps[i]) == Some(q[i].value)
      ensures Before(paths[0], ps[i])
      ensures ps[i] != [] ==> Before(ps[i][..|ps[i]| - 1], ps[0])
    {
      EntryAfterVisit(h, root, maxDepth, queue, paths, jobs, added, i);
      EntryAfterVisit(h, root, maxDepth, queue, paths, jobs, added, 0);
      if ps[i] != [] && ps[i][..|ps[i]| - 1] != paths[0] {
        Transitive(ps[i][..|ps[i]| - 1], paths[0], ps[0]);
      }
    }
    forall i, j | 0 <= i < j < |q|
      ensures Before(ps[i], ps[j])
    {
      PairAfterVisit(h, root, maxDepth, queue, paths, jobs, added, i, j);
    }
  }

  lemma KnownAfterVisit(known: map<nat, Path>, queue: seq<Job>, paths: seq<Path>, jobs: seq<Job>, added: seq<Path>, id: nat,
      path: Path)
    requires queue != [] && |paths| == |queue| && queue[0].value.Ref? && queue[0].value.id !in known
    requires Known(known, queue, paths, id, path)
    ensures Known(known[queue[0].value.id := paths[0]], queue[1..] + jobs, paths[1..] + added, id, path)
  {
    if !(id in known && NotAfter(known[id], path)) {
      var i :| 0 <= i < |queue| && queue[i].value == Ref(id) && NotAfter(paths[i], path);
      if i > 0 {
        assert (queue[1..] + jobs)[i - 1] == queue[i] && (paths[1..] + added)[i - 1] == paths[i];
      }
    }
  }

  lemma ChildKnown(h: Heap, maxDepth: nat, known: map<nat, Path>, queue: seq<Job>, paths: seq<Path>, jobs: seq<Job>,
      added: seq<Path>, k: nat)
    requires Visits(h, maxDepth, queue, paths, jobs, added) && queue[0].depth < maxDepth
    requires var entries := h[queue[0].value.id].entries; k < |entries| && entries[k].value.Ref?
    ensures Known(known, queue[1..] + jobs, paths[1..] + added, h[queue[0].value.id].entries[k].value.id, paths[0] + [k])
  {
    var i := ChildOf(h[queue[0].value.id].entries, paths[0], 0, queue[0].depth + 1, k);
    var at := |queue| - 1 + i;
    assert (queue[1..] + jobs)[at] == jobs[i] && (paths[1..] + added)[at] == added[i];
  }

  /** Visiting the front and queueing its entries keeps all that is known. */
  lemma VisitRanked(h: Heap, root: Value, maxDepth: nat, known: map<nat, Path>, queue: seq<Job>, paths: seq<Path>)
    requires Ranked(h, root, maxDepth, known, queue, paths) && queue != [] && queue[0].value.Ref? && queue[0].value.id in h
    requires queue[0].value.id !in known && !IsContainer(h, queue[0].value)
    ensures Ranked(h, root, maxDepth, known[queue[0].value.id := paths[0]], queue[1..] + Expansion(h, maxDepth, queue[0]),
                   paths[1..] + PathsOf(h, maxDepth, queue[0], paths[0]))
  {
    var id, jobs, added := queue[0].value.id, Expansion(h, maxDepth, queue[0]), PathsOf(h, maxDepth, queue[0], paths[0]);
    var known', q, ps := known[id := paths[0]], queue[1..] + jobs, paths[1..] + added;
    VisitInOrder(h, root, maxDepth, queue, paths, jobs, added);
    forall x, i | x in known' && 0 <= i < |ps|
      ensures Before(known'[x], ps[i])
    {
      if x != id {
        Transitive(known[x], paths[0], ps[i]);
      }
    }
    VisitEntriesKnown(h, root, maxDepth, known, queue, paths, jobs, added);
  }

  lemma VisitEntriesKnown(h: Heap, root: Value, maxDepth: nat, known: map<nat, Path>, queue: seq<Job>, paths: seq<Path>,
      jobs: seq<Job>, added: seq<Path>)
    requires EntriesKnown(h, root, maxDepth, known, queue, paths) && Visits(h, maxDepth, queue, paths, jobs, added)
    requires queue[0].value.id !in known && |paths[0]| == queue[0].depth
    ensures EntriesKnown(h, root, maxDepth, known[queue[0].value.id := paths[0]], queue[1..] + jobs, paths[1..] + added)
  {
    var id := queue[0].value.id;
    var known', q, ps := known[id := paths[0]], queue[1..] + jobs, paths[1..] + added;
    if root.Ref? {
      KnownAfterVisit(known, queue, paths, jobs, added, root.id, []);
    }
    forall x, k: nat {:trigger known'[x], h[x].entries[k]} | x in known' && x in h && |known'[x]| < maxDepth
        && k < |h[x].entries| && h[x].entries[k].value.Ref?
      ensures Known(known', q, ps, h[x].entries[k].value.id, known'[x] + [k])
    {
      if x == id {
        ChildKnown(h, maxDepth, known', queue, paths, jobs, added, k);
      } else {
        KnownAfterVisit(known, queue, paths, jobs, added, h[x].entries[k].value.id, known[x] + [k]);
      }
    }
  }
}
