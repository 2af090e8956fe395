/** Finding the reporting rows inside an arbitrarily wrapped, possibly cyclic, item. */
module Discovery {
  import opened Wrappers
  import opened ItemGraph
  import opened DiscoveryOrder

  const MAX_DISCOVERY_DEPTH: nat := 6

  const PREFERRED_WRAPPER_PATHS: seq<seq<string>> := [
    [],
    ["body"],
    ["result"],
    ["body", "result"],
    ["body", "result", "result"],
    ["data"],
    ["response"],
    ["taskResult"],
    ["taskResponse"],
    ["output"]
  ]

  /** `id` is reached from `root` by following exactly `links` references. */
  ghost predicate Linked(h: Heap, root: Value, id: nat, links: nat)
    decreases links
  {
    id in h &&
    if links == 0 then root == Ref(id)
    else exists mid :: mid in h && Linked(h, root, mid, links - 1) && HasChild(h[mid], Ref(id))
  }

  /** `id` has been visited within `links` links, or waits in the queue for that. */
  ghost predicate Covered(level: map<nat, nat>, queue: seq<Job>, id: nat, links: nat) {
    (id in level && level[id] <= links) ||
    exists i :: 0 <= i < |queue| && queue[i].value == Ref(id) && queue[i].depth <= links
  }

  /** Visited objects were reached at their level and are not containers. */
  ghost predicate Explored(h: Heap, root: Value, maxDepth: nat, level: map<nat, nat>) {
    forall id :: id in level ==> id in h && Linked(h, root, id, level[id]) && level[id] <= maxDepth && !IsContainer(h, Ref(id))
  }

  ghost predicate Queued(h: Heap, root: Value, maxDepth: nat, queue: seq<Job>) {
    forall i :: 0 <= i < |queue| ==>
      && queue[i].depth <= maxDepth && InHeap(h, queue[i].value)
      && (queue[i].value.Ref? ==> Linked(h, root, queue[i].value.id, queue[i].depth))
  }

  /** Depths along the queue never fall and never rise by more than one; nothing visited is deeper than the queue. */
  ghost predicate Ordered(level: map<nat, nat>, queue: seq<Job>) {
    && (forall i, j :: 0 <= i < j < |queue| ==> queue[i].depth <= queue[j].depth <= queue[i].depth + 1)
    && (forall id, i :: id in level && 0 <= i < |queue| ==> level[id] <= queue[i].depth)
  }

  /** The root and the children of every visited object above the bound are covered. */
  ghost predicate Complete(h: Heap, root: Value, maxDepth: nat, level: map<nat, nat>, queue: seq<Job>) {
    && (root.Ref? ==> Covered(level, queue, root.id, 0))
    && (forall id, child: nat {:trigger level[id], Ref(child)} ::
          id in level && id in h && level[id] < maxDepth && child in h && HasChild(h[id], Ref(child)) ==>
            Covered(level, queue, child, level[id] + 1))
  }

  /** What the breadth-first loop keeps: `level` records each visited object with its depth. */
  ghost predicate Searching(h: Heap, root: Value, maxDepth: nat, level: map<nat, nat>, queue: seq<Job>) {
    && Explored(h, root, maxDepth, level)
    && Queued(h, root, maxDepth, queue)
    && Ordered(level, queue)
    && Complete(h, root, maxDepth, level, queue)
  }

  /** Everything closer than the front of the queue has been visited. */
  lemma {:induction false} VisitedUpTo(h: Heap, root: Value, maxDepth: nat, level: map<nat, nat>, queue: seq<Job>, id: nat,
      links: nat)
    requires Searching(h, root, maxDepth, level, queue)
    requires Linked(h, root, id, links) && links <= maxDepth
    requires forall i :: 0 <= i < |queue| ==> links < queue[i].depth
    ensures id in level && level[id] <= links
    decreases links
  {
    if links > 0 {
      var mid :| mid in h && Linked(h, root, mid, links - 1) && HasChild(h[mid], Ref(id));
      VisitedUpTo(h, root, maxDepth, level, queue, mid, links - 1);
      assert Covered(level, queue, id, level[mid] + 1);
    }
  }

  /** The front of the queue was visited before: dropping it loses nothing. */
  lemma DropVisited(h: Heap, root: Value, maxDepth: nat, level: map<nat, nat>, queue: seq<Job>)
    requires Searching(h, root, maxDepth, level, queue) && queue != []
    requires queue[0].value.Scalar? || queue[0].value.id in level
    ensures Searching(h, root, maxDepth, level, queue[1..])
  {
    forall id, links: nat | Covered(level, queue, id, links)
      ensures Covered(level, queue[1..], id, links)
    {
      if !(id in level && level[id] <= links) {
        var i :| 0 <= i < |queue| && queue[i].value == Ref(id) && queue[i].depth <= links;
        assert i > 0 && queue[1..][i - 1] == queue[i];
      }
    }
  }

  lemma {:induction false} JobsHold(entries: seq<Entry>, depth: nat)
    ensures forall j :: j in Jobs(entries, depth) ==>
              j.depth == depth && j.value.Ref? && exists i :: 0 <= i < |entries| && entries[i].value == j.value
    ensures forall i :: 0 <= i < |entries| && entries[i].value.Ref? ==> Job(entries[i].value, depth) in Jobs(entries, depth)
  {
    if entries != [] {
      JobsHold(entries[1..], depth);
      forall j | j in Jobs(entries, depth)
        ensures j.depth == depth && j.value.Ref? && exists i :: 0 <= i < |entries| && entries[i].value == j.value
      {
        if j in Jobs(entries[1..], depth) {
          var i :| 0 <= i < |entries[1..]| && entries[1..][i].value == j.value;
          assert entries[i + 1].value == j.value;
        } else {
          assert entries[0].value == j.value;
        }
      }
    }
  }

  /** Every entry of the queue after the front was expanded lies at the front's depth or one link further. */
  lemma ExpandedEntry(h: Heap, root: Value, maxDepth: nat, level: map<nat, nat>, queue: seq<Job>, jobs: seq<Job>, i: nat)
    requires Closed(h) && Searching(h, root, maxDepth, level, queue)
    requires queue != [] && queue[0].value.Ref?
    requires jobs == if queue[0].depth >= maxDepth then [] else Jobs(h[queue[0].value.id].entries, queue[0].depth + 1)
    requires i < |queue| - 1 + |jobs|
    ensures var j := (queue[1..] + jobs)[i];
            && j.depth <= maxDepth && InHeap(h, j.value) && queue[0].depth <= j.depth <= queue[0].depth + 1
            && (j.value.Ref? ==> Linked(h, root, j.value.id, j.depth))
            && (i >= |queue| - 1 ==> j.depth == queue[0].depth + 1)
  {
    var id, depth := queue[0].value.id, queue[0].depth;
    var j := (queue[1..] + jobs)[i];
    if i < |queue| - 1 {
      assert j == queue[i + 1];
    } else {
      assert j == jobs[i - (|queue| - 1)];
      JobsHold(h[id].entries, depth + 1);
      assert HasChild(h[id], j.value);
    }
  }

  lemma StillCovered(level: map<nat, nat>, queue: seq<Job>, jobs: seq<Job>, x: nat, links: nat)
    requires queue != [] && queue[0].value.Ref? && queue[0].value.id !in level && Covered(level, queue, x, links)
    ensures Covered(level[queue[0].value.id := queue[0].depth], queue[1..] + jobs, x, links)
  {
    if !(x in level && level[x] <= links) {
      var i :| 0 <= i < |queue| && queue[i].value == Ref(x) && queue[i].depth <= links;
      if i > 0 {
        assert (queue[1..] + jobs)[i - 1] == queue[i];
      }
    }
  }

  lemma ChildCovered(level: map<nat, nat>, queue: seq<Job>, o: Object, depth: nat, child: nat)
    requires HasChild(o, Ref(child))
    ensures Covered(level, queue + Jobs(o.entries, depth), child, depth)
  {
    var jobs := Jobs(o.entries, depth);
    JobsHold(o.entries, depth);
    var i :| 0 <= i < |o.entries| && o.entries[i].value == Ref(child);
    var k :| 0 <= k < |jobs| && jobs[k] == Job(Ref(child), depth);
    assert (queue + jobs)[|queue| + k] == jobs[k];
  }

  lemma VisitQueued(h: Heap, root: Value, maxDepth: nat, level: map<nat, nat>, queue: seq<Job>, jobs: seq<Job>)
    requires Closed(h) && Searching(h, root, maxDepth, level, queue)
    requires queue != [] && queue[0].value.Ref?
    requires jobs == if queue[0].depth >= maxDepth then [] else Jobs(h[queue[0].value.id].entries, queue[0].depth + 1)
    ensures Queued(h, root, maxDepth, queue[1..] + jobs)
    ensures Ordered(level[queue[0].value.id := queue[0].depth], queue[1..] + jobs)
  {
    var depth, queue' := queue[0].depth, queue[1..] + jobs;
    forall i | 0 <= i < |queue'|
      ensures queue'[i].depth <= maxDepth && InHeap(h, queue'[i].value) && depth <= queue'[i].depth <= depth + 1
      ensures queue'[i].value.Ref? ==> Linked(h, root, queue'[i].value.id, queue'[i].depth)
      ensures i >= |queue| - 1 ==> queue'[i].depth == depth + 1
    {
      ExpandedEntry(h, root, maxDepth, level, queue, jobs, i);
    }
    forall i, j | 0 <= i < j < |queue'|
      ensures queue'[i].depth <= queue'[j].depth <= queue'[i].depth + 1
    {
      if j < |queue| - 1 {
        assert queue'[i] == queue[i + 1] && queue'[j] == queue[j + 1];
      }
    }
    assert forall x :: x in level ==> level[x] <= queue[0].depth;
  }

  lemma VisitComplete(h: Heap, root: Value, maxDepth: nat, level: map<nat, nat>, queue: seq<Job>, jobs: seq<Job>)
    requires queue != [] && queue[0].value.Ref? && queue[0].value.id !in level && queue[0].value.id in h
    requires Complete(h, root, maxDepth, level, queue) && level.Keys <= h.Keys
    requires jobs == if queue[0].depth >= maxDepth then [] else Jobs(h[queue[0].value.id].entries, queue[0].depth + 1)
    ensures Complete(h, root, maxDepth, level[queue[0].value.id := queue[0].depth], queue[1..] + jobs)
  {
    var id, depth := queue[0].value.id, queue[0].depth;
    var level', queue' := level[id := depth], queue[1..] + jobs;
    if root.Ref? {
      StillCovered(level, queue, jobs, root.id, 0);
    }
    forall x, child: nat {:trigger level'[x], Ref(child)} | x in level' && x in h && level'[x] < maxDepth && child in h
        && HasChild(h[x], Ref(child))
      ensures Covered(level', queue', child, level'[x] + 1)
    {
      if x == id {
        ChildCovered(level', queue[1..], h[id], depth + 1, child);
      } else {
        StillCovered(level, queue, jobs, child, level[x] + 1);
      }
    }
  }

  /** Visiting the front of the queue and queueing its children keeps the invariant. */
  lemma Visit(h: Heap, root: Value, maxDepth: nat, level: map<nat, nat>, queue: seq<Job>)
    requires Closed(h) && Searching(h, root, maxDepth, level, queue)
    requires queue != [] && queue[0].value.Ref? && queue[0].value.id !in level && !IsContainer(h, queue[0].value)
    ensures queue[0].value.id in h
    ensures level[queue[0].value.id := queue[0].depth].Keys == level.Keys + {queue[0].value.id}
    ensures Searching(h, root, maxDepth, level[queue[0].value.id := queue[0].depth],
        queue[1..] + Expansion(h, maxDepth, queue[0]))
  {
    VisitQueued(h, root, maxDepth, level, queue, Expansion(h, maxDepth, queue[0]));
    VisitComplete(h, root, maxDepth, level, queue, Expansion(h, maxDepth, queue[0]));
  }

  /** No container lies fewer links away than the front of the queue. */
  lemma NoneCloser(h: Heap, root: Value, maxDepth: nat, level: map<nat, nat>, queue: seq<Job>, bound: nat)
    requires Searching(h, root, maxDepth, level, queue) && bound <= maxDepth + 1
    requires forall i :: 0 <= i < |queue| ==> bound <= queue[i].depth
    ensures forall id: nat, links: nat :: links < bound && Linked(h, root, id, links) ==> !IsContainer(h, Ref(id))
  {
    forall id: nat, links: nat | links < bound && Linked(h, root, id, links)
      ensures !IsContainer(h, Ref(id))
    {
      VisitedUpTo(h, root, maxDepth, level, queue, id, links);
    }
  }

  /** All that the search keeps. */
  ghost predicate Sought(h: Heap, root: Value, maxDepth: nat, level: map<nat, nat>, known: map<nat, Path>, queue: seq<Job>,
      paths: seq<Path>) {
    Searching(h, root, maxDepth, level, queue) && Ranked(h, root, maxDepth, known, queue, paths) && level.Keys == known.Keys
  }

  lemma StartSought(h: Heap, root: Value, maxDepth: nat)
    requires InHeap(h, root)
    ensures Sought(h, root, maxDepth, map[], map[], [Job(root, 0)], [[]])
  {
    StartRanked(h, root, maxDepth);
    assert root.Ref? ==> [Job(root, 0)][0].value == Ref(root.id);
  }

  lemma DropFront(h: Heap, root: Value, maxDepth: nat, level: map<nat, nat>, known: map<nat, Path>, queue: seq<Job>,
      paths: seq<Path>)
    requires Sought(h, root, maxDepth, level, known, queue, paths) && queue != []
    requires queue[0].value.Scalar? || queue[0].value.id in level
    ensures paths != [] && Sought(h, root, maxDepth, level, known, queue[1..], paths[1..])
  {
    DropVisited(h, root, maxDepth, level, queue);
    DropRanked(h, root, maxDepth, known, queue, paths);
  }

  lemma VisitFront(h: Heap, root: Value, maxDepth: nat, level: map<nat, nat>, known: map<nat, Path>, queue: seq<Job>,
      paths: seq<Path>)
    requires Closed(h) && Sought(h, root, maxDepth, level, known, queue, paths)
    requires queue != [] && queue[0].value.Ref? && queue[0].value.id !in level && !IsContainer(h, queue[0].value)
    ensures queue[0].value.id in h && paths != []
    ensures level[queue[0].value.id := queue[0].depth].Keys == level.Keys + {queue[0].value.id}
    ensures var job := queue[0];
            Sought(h, root, maxDepth, level[job.value.id := job.depth], known[job.value.id := paths[0]],
                   queue[1..] + Expansion(h, maxDepth, job), paths[1..] + PathsOf(h, maxDepth, job, paths[0]))
  {
    Visit(h, root, maxDepth, level, queue);
    VisitRanked(h, root, maxDepth, known, queue, paths);
  }

  /** What the search may answer: a container that is reached, none of which is closer, nor at an earlier place. */
  ghost predicate Answers(h: Heap, root: Value, maxDepth: nat, job: Job) {
    && IsContainer(h, job.value) && job.depth <= maxDepth && Linked(h, root, job.value.id, job.depth)
    && (forall id: nat, links: nat :: links < job.depth && Linked(h, root, id, links) ==> !IsContainer(h, Ref(id)))
    && (exists path :: FirstPlace(h, root, maxDepth, job.value, path) && |path| == job.depth)
  }

  lemma AnswerFront(h: Heap, root: Value, maxDepth: nat, level: map<nat, nat>, known: map<nat, Path>, queue: seq<Job>,
      paths: seq<Path>)
    requires Sought(h, root, maxDepth, level, known, queue, paths) && queue != [] && IsContainer(h, queue[0].value)
    ensures Answers(h, root, maxDepth, queue[0])
  {
    NoneCloser(h, root, maxDepth, level, queue, queue[0].depth);
    FrontIsFirst(h, root, maxDepth, known, queue, paths);
  }

  lemma NothingLeft(h: Heap, root: Value, maxDepth: nat, level: map<nat, nat>, known: map<nat, Path>, paths: seq<Path>)
    requires Sought(h, root, maxDepth, level, known, [], paths)
    ensures forall id: nat, links: nat :: links <= maxDepth && Linked(h, root, id, links) ==> !IsContainer(h, Ref(id))
  {
    NoneCloser(h, root, maxDepth, level, [], maxDepth + 1);
  }

  /** No object occurs twice, and all are among `visited`. */
  ghost predicate Distinct(expanded: seq<nat>, visited: set<nat>) {
    && (forall i :: 0 <= i < |expanded| ==> expanded[i] in visited)
    && (forall i, j :: 0 <= i < j < |expanded| ==> expanded[i] != expanded[j])
  }

  lemma DistinctSnoc(expanded: seq<nat>, visited: set<nat>, id: nat)
    requires Distinct(expanded, visited) && id !in visited
    ensures Distinct(expanded + [id], visited + {id})
  {}

  /** Queues what the visited object holds, one link further away, unless the bound is reached. */
  method QueueChildren(h: Heap, maxDepth: nat, job: Job, queue: seq<Job>) returns (longer: seq<Job>)
    requires job.value.Ref? && job.value.id in h
    ensures longer == queue + Expansion(h, maxDepth, job)
  {
    longer := queue;
    if job.depth >= maxDepth {
      return;
    }
    var children, depth := h[job.value.id].entries, job.depth + 1;
    for i := 0 to |children|
      invariant longer + Jobs(children[i..], depth) == queue + Jobs(children, depth)
    {
      if children[i].value.Ref? {
        longer := longer + [Job(children[i].value, depth)];
      }
    }
  }

  /** Breadth-first search with a visited set. It ends on cyclic graphs, expands no object twice, and finds a container
      exactly when one lies within `maxDepth` links: the one at the least such depth whose path of entry positions comes first in
      dictionary order. */
  method FindContainerRecursively(h: Heap, root: Value, maxDepth: nat) returns (found: Option<Job>, ghost expanded: seq<nat>)
    requires Closed(h) && InHeap(h, root)
    ensures found.Some? ==> Answers(h, root, maxDepth, found.value) == true  // the equation keeps the definition folded
    ensures found.None? ==>
              forall id: nat, links: nat :: links <= maxDepth && Linked(h, root, id, links) ==> !IsContainer(h, Ref(id))
    ensures Distinct(expanded, h.Keys)
  {
    var visited: set<nat> := {};
    var queue := [Job(root, 0)];
    ghost var level: map<nat, nat> := map[];
    ghost var known: map<nat, Path> := map[];
    ghost var paths: seq<Path> := [[]];
    StartSought(h, root, maxDepth);
    expanded := [];
    while queue != []
      invariant Sought(h, root, maxDepth, level, known, queue, paths) == true
      invariant visited == level.Keys
      invariant Distinct(expanded, visited)
      decreases h.Keys - visited, |queue|
    {
      var job := queue[0];
      if job.value.Scalar? || job.value.id in visited {
        DropFront(h, root, maxDepth, level, known, queue, paths);
        queue, paths := queue[1..], paths[1..];
      } else if IsContainer(h, job.value) {
        AnswerFront(h, root, maxDepth, level, known, queue, paths);
        found := Some(job);
        return;
      } else {
        VisitFront(h, root, maxDepth, level, known, queue, paths);
        DistinctSnoc(expanded, visited, job.value.id);
        visited := visited + {job.value.id};
        level, known := level[job.value.id := job.depth], known[job.value.id := paths[0]];
        expanded := expanded + [job.value.id];
        paths := paths[1..] + PathsOf(h, maxDepth, job, paths[0]);
        queue := QueueChildren(h, maxDepth, job, queue[1..]);
      }
    }
    NothingLeft(h, root, maxDepth, level, known, paths);
    found := None;
  }

  function Lookup(entries: seq<Entry>, key: string): Value {
    if entries == [] then Scalar else if entries[0].key == key then entries[0].value else Lookup(entries[1..], key)
  }

  /** Reading a path; a missing key, a scalar or an array on the way gives a scalar. */
  function AtPath(h: Heap, v: Value, path: seq<string>): Value
    decreases |path|
  {
    if path == [] then v
    else if v.Scalar? || v.id !in h || h[v.id].isArray then Scalar
    else AtPath(h, Lookup(h[v.id].entries, path[0]), path[1..])
  }

  lemma {:induction false} LookupIsChild(o: Object, entries: seq<Entry>, key: string)
    requires forall i :: 0 <= i < |entries| ==> HasChild(o, entries[i].value)
    ensures Lookup(entries, key).Ref? ==> HasChild(o, Lookup(entries, key))
  {
    if entries != [] && entries[0].key != key {
      LookupIsChild(o, entries[1..], key);
    }
  }

  /** What a path reads lies as many links away as the path is long. */
  lemma {:induction false} PathIsLinked(h: Heap, root: Value, v: Value, path: seq<string>, done: nat)
    requires Closed(h) && (v.Ref? ==> Linked(h, root, v.id, done))
    ensures var r := AtPath(h, v, path); r.Ref? ==> Linked(h, root, r.id, done + |path|)
    decreases |path|
  {
    if path != [] && v.Ref? && v.id in h && !h[v.id].isArray {
      var o := h[v.id];
      assert forall i :: 0 <= i < |o.entries| ==> HasChild(o, o.entries[i].value);
      LookupIsChild(o, o.entries, path[0]);
      var next := Lookup(o.entries, path[0]);
      if next.Ref? {
        assert InHeap(h, next);
      }
      PathIsLinked(h, root, next, path[1..], done + 1);
    }
  }

  /** The places where the container usually is, in the order in which they are tried. */
  ghost predicate WrapperPath(k: nat, path: seq<string>) {
    || (k == 0 && path == [])
    || (k == 1 && path == ["body"])
    || (k == 2 && path == ["result"])
    || (k == 3 && path == ["body", "result"])
    || (k == 4 && path == ["body", "result", "result"])
    || (k == 5 && path == ["data"])
    || (k == 6 && path == ["response"])
    || (k == 7 && path == ["taskResult"])
    || (k == 8 && path == ["taskResponse"])
    || (k == 9 && path == ["output"])
  }

  lemma WrapperPathsAre(k: nat, path: seq<string>)
    ensures WrapperPath(k, path) <==> k < |PREFERRED_WRAPPER_PATHS| && PREFERRED_WRAPPER_PATHS[k] == path
  {}

  /** No container stands at any of the first paths. */
  ghost predicate AtNoWrapper(h: Heap, item: Value, before: nat)
    requires before <= |PREFERRED_WRAPPER_PATHS|
  {
    forall j :: 0 <= j < before ==> !IsContainer(h, AtPath(h, item, PREFERRED_WRAPPER_PATHS[j]))
  }

  ghost predicate AtFirstWrapper(h: Heap, item: Value, k: nat)
    requires k < |PREFERRED_WRAPPER_PATHS|
  {
    AtNoWrapper(h, item, k) && IsContainer(h, AtPath(h, item, PREFERRED_WRAPPER_PATHS[k]))
  }

  ghost predicate SomeWithin(h: Heap, item: Value, bound: nat) {
    exists id: nat, links: nat :: links <= bound && Linked(h, item, id, links) && IsContainer(h, Ref(id))
  }

  lemma WrapperWithin(h: Heap, item: Value, path: seq<string>)
    requires Closed(h) && InHeap(h, item) && |path| <= 6 && IsContainer(h, AtPath(h, item, path))
    ensures SomeWithin(h, item, 6)
  {
    PathIsLinked(h, item, item, path, 0);
    var candidate := AtPath(h, item, path);
    assert Linked(h, item, candidate.id, |path|) && IsContainer(h, Ref(candidate.id));
  }

  lemma WrappersAreShort(k: nat)
    requires k < |PREFERRED_WRAPPER_PATHS|
    ensures |PREFERRED_WRAPPER_PATHS[k]| <= 3
  {}

  /** Known wrapper paths first, then the search: discovery fails exactly when no container lies within six links. */
  method DiscoverContainer(h: Heap, item: Value) returns (found: Option<Value>)
    requires Closed(h) && InHeap(h, item)
    ensures found.Some? ==> IsContainer(h, found.value)
    ensures found.Some? <==> SomeWithin(h, item, 6)
    ensures forall k :: 0 <= k < |PREFERRED_WRAPPER_PATHS| && AtFirstWrapper(h, item, k) ==>
              found == Some(AtPath(h, item, PREFERRED_WRAPPER_PATHS[k]))
    ensures found.Some? && AtNoWrapper(h, item, |PREFERRED_WRAPPER_PATHS|) ==>
      exists path :: FirstPlace(h, item, 6, found.value, path)
  {
    for i := 0 to |PREFERRED_WRAPPER_PATHS|
      invariant AtNoWrapper(h, item, i) == true  // the equation keeps the definition folded
    {
      var path := PREFERRED_WRAPPER_PATHS[i];
      var candidate := AtPath(h, item, path);
      if IsContainer(h, candidate) {
        WrappersAreShort(i);
        WrapperWithin(h, item, path);
        return Some(candidate);
      }
    }
    found := Search(h, item);
  }

  /** The search alone, within six links. */
  method Search(h: Heap, item: Value) returns (found: Option<Value>)
    requires Closed(h) && InHeap(h, item)
    ensures found.Some? ==> IsContainer(h, found.value) && exists path :: FirstPlace(h, item, 6, found.value, path)
    ensures found.Some? <==> SomeWithin(h, item, 6)
  {
    ghost var expanded;
    var job;
    job, expanded := FindContainerRecursively(h, item, MAX_DISCOVERY_DEPTH);
    if job.Some? {
      assert IsContainer(h, Ref(job.value.value.id)) && Linked(h, item, job.value.value.id, job.value.depth);
    }
    found := if job.Some? then Some(job.value.value) else None;
  }
}
