/** An item as a graph of objects, and the queue entries of the search through it. */
module ItemGraph {
  /** Scalars, null and undefined are all `Scalar`; anything else is a reference, so sharing and cycles are visible. */
  datatype Value = Scalar | Ref(id: nat)

  datatype Entry = Entry(key: string, value: Value)

  /** `rows` says that the object's own "analyticsReportingRows" is an array. */
  datatype Object = Object(isArray: bool, rows: bool, entries: seq<Entry>)

  type Heap = map<nat, Object>

  predicate InHeap(h: Heap, v: Value) {
    v.Ref? ==> v.id in h
  }

  predicate Closed(h: Heap) {
    forall id, i :: id in h && 0 <= i < |h[id].entries| ==> InHeap(h, h[id].entries[i].value)
  }

  predicate IsContainer(h: Heap, v: Value) {
    v.Ref? && v.id in h && !h[v.id].isArray && h[v.id].rows
  }

  predicate HasChild(o: Object, v: Value) {
    exists i :: 0 <= i < |o.entries| && o.entries[i].value == v
  }

  /** A queue entry: a value and how many links it is from the root. */
  datatype Job = Job(value: Value, depth: nat)

  function Jobs(entries: seq<Entry>, depth: nat): seq<Job> {
    if entries == [] then []
    else (if entries[0].value.Ref? then [Job(entries[0].value, depth)] else []) + Jobs(entries[1..], depth)
  }

  function Expansion(h: Heap, maxDepth: nat, job: Job): seq<Job>
    requires job.value.Ref? && job.value.id in h
  {
    Jobs(if job.depth >= maxDepth then [] else h[job.value.id].entries, job.depth + 1)
  }
}
