/** The n8n transform as a whole: first occurrences across all items, sanitized, in journey order. */
module ReportingItems {
  import opened Wrappers
  import opened Codec
  import opened Sanitizer
  import opened Aliases
  import opened Order

  /** `eventId` is None unless the row carries a non-empty string there; a missing journeySequence counts as 0. */
  datatype Row = Row(eventId: Option<string>, journeySequence: int, body: Json)

  function EventIdOf(): Row -> Option<string> {
    (r: Row) => r.eventId
  }

  function BySequence(): (Row, Row) -> bool {
    (a: Row, b: Row) => a.journeySequence <= b.journeySequence
  }

  /** The row that leaves: sanitized, and an object with its aliases. */
  function SanitizeRow(c: Codecs, r: Row): Row {
    r.(body := if r.body.Obj? then Obj(Leaving(c, r.body.fields)) else SanitizeValue(c, r.body, 0))
  }

  method CleanRow(c: Codecs, r: Row) returns (out: Row)
    ensures out == SanitizeRow(c, r)
  {
    var body := SanitizeValue(c, r.body, 0);
    if body.Obj? {
      var fields := AddSnakeCaseAliases(c, r.body, body.fields);
      body := Obj(fields);
    }
    out := r.(body := body);
  }

  function SanitizeRows(c: Codecs, rows: seq<Row>): (r: seq<Row>)
    ensures |r| == |rows| && forall i :: 0 <= i < |r| ==> r[i] == SanitizeRow(c, rows[i])
  {
    if rows == [] then [] else SanitizeRows(c, rows[..|rows| - 1]) + [SanitizeRow(c, rows[|rows| - 1])]
  }

  function Concat(items: seq<Option<seq<Row>>>): seq<Row> {
    if items == [] then [] else Concat(items[..|items| - 1]) + items[|items| - 1].GetOr([])
  }

  predicate AllFound(items: seq<Option<seq<Row>>>) {
    forall i :: 0 <= i < |items| ==> items[i].Some?
  }

  /** First occurrences, sanitized, in journey order. */
  function SortedKept(c: Codecs, all: seq<Row>): seq<Row> {
    StableSort(SanitizeRows(c, FirstOccurrences(all, EventIdOf())), BySequence())
  }

  /** An item is the rows discovered in it, or None when discovery throws; then the whole transform throws. */
  function Transform(c: Codecs, items: seq<Option<seq<Row>>>): Option<seq<Row>> {
    if !AllFound(items) then None
    else Some(SortedKept(c, Concat(items)))
  }

  /** The identities already seen are those of the rows read so far. */
  ghost predicate SeenIds(seen: set<string>, rows: seq<Row>) {
    forall k :: k in seen <==> exists x :: x in rows && x.eventId == Some(k)
  }

  lemma SeenIdsSnoc(seen: set<string>, rows: seq<Row>, row: Row)
    requires SeenIds(seen, rows)
    ensures SeenIds(if row.eventId.Some? then seen + {row.eventId.value} else seen, rows + [row])
    ensures row.eventId.Some? ==> (row.eventId.value in seen <==> Seen(rows, row, EventIdOf()))
  {
    var all := rows + [row];
    assert row in all && forall x :: x in rows ==> x in all;
    if row.eventId.Some? && Seen(rows, row, EventIdOf()) {
      var y :| y in rows && SameId(y, row, EventIdOf());
      assert y.eventId == Some(row.eventId.value);
    }
    if row.eventId.Some? && row.eventId.value in seen {
      var x :| x in rows && x.eventId == Some(row.eventId.value);
      assert SameId(x, row, EventIdOf());
    }
  }

  lemma KeepSnoc(c: Codecs, rows: seq<Row>, row: Row)
    ensures var kept, more := FirstOccurrences(rows, EventIdOf()), FirstOccurrences(rows + [row], EventIdOf());
            SanitizeRows(c, more) ==
              SanitizeRows(c, kept) + if Seen(rows, row, EventIdOf()) then [] else [SanitizeRow(c, row)]
  {
    assert (rows + [row])[..|rows|] == rows;
    var kept := FirstOccurrences(rows, EventIdOf());
    assert (kept + [row])[..|kept|] == kept;
  }

  /** What the loop holds after reading `done`: the sanitized first occurrences, and their identities. */
  ghost predicate Collected(c: Codecs, rows: seq<Row>, seen: set<string>, done: seq<Row>) {
    rows == SanitizeRows(c, FirstOccurrences(done, EventIdOf())) && SeenIds(seen, done)
  }

  lemma SkipsSeen(c: Codecs, rows: seq<Row>, seen: set<string>, done: seq<Row>, row: Row)
    requires Collected(c, rows, seen, done) && row.eventId.Some? && row.eventId.value in seen
    ensures Collected(c, rows, seen, done + [row])
  {
    SeenIdsSnoc(seen, done, row);
    KeepSnoc(c, done, row);
    assert seen == seen + {row.eventId.value};
    assert rows + [] == rows;
  }

  lemma CollectsNew(c: Codecs, rows: seq<Row>, seen: set<string>, done: seq<Row>, row: Row)
    requires Collected(c, rows, seen, done) && (row.eventId.Some? ==> row.eventId.value !in seen)
    ensures Collected(c, rows + [SanitizeRow(c, row)], if row.eventId.Some? then seen + {row.eventId.value} else seen,
        done + [row])
  {
    SeenIdsSnoc(seen, done, row);
    KeepSnoc(c, done, row);
  }

  /** One item's rows, added behind those of the items before it. */
  method AddItem(c: Codecs, rows: seq<Row>, seen: set<string>, own: seq<Row>, ghost before: seq<Row>)
    returns (rows': seq<Row>, seen': set<string>)
    requires Collected(c, rows, seen, before)
    ensures Collected(c, rows', seen', before + own)
  {
    rows', seen' := rows, seen;
    ghost var done := before;
    assert before + own[..0] == before;
    for j := 0 to |own|
      invariant done == before + own[..j]
      invariant Collected(c, rows', seen', done) == true  // the equation keeps the definition folded
    {
      var row := own[j];
      ghost var read := done;
      ReadOne(before, own, j);
      done := done + [row];
      if row.eventId.Some? {
        if row.eventId.value in seen' {
          SkipsSeen(c, rows', seen', read, row);
          continue;
        }
        CollectsNew(c, rows', seen', read, row);
        seen' := seen' + {row.eventId.value};
      } else {
        CollectsNew(c, rows', seen', read, row);
      }
      var clean := CleanRow(c, row);
      rows' := rows' + [clean];
    }
    assert own[..|own|] == own;
  }

  lemma ReadOne(before: seq<Row>, own: seq<Row>, j: nat)
    requires j < |own|
    ensures before + own[..j + 1] == before + own[..j] + [own[j]]
  {}

  /** The source's loops: one set of seen identities across all items, one growing output, sorted at the end. */
  method BuildAnalyticsReportingRowsItems(c: Codecs, items: seq<Option<seq<Row>>>) returns (out: Option<seq<Row>>)
    ensures out == Transform(c, items)
  {
    var rows: seq<Row> := [];
    var seenEventIds: set<string> := {};
    ghost var before: seq<Row> := [];
    for i := 0 to |items|
      invariant AllFound(items[..i])
      invariant before == Concat(items[..i])
      invariant Collected(c, rows, seenEventIds, before) == true  // the equation keeps the definition folded
    {
      if items[i].None? {
        return None;
      }
      ConcatSnoc(items, i);
      assert items[..i + 1] == items[..i] + [items[i]];
      rows, seenEventIds := AddItem(c, rows, seenEventIds, items[i].value, before);
      before := before + items[i].value;
    }
    assert items[..|items|] == items;
    assert rows == SanitizeRows(c, FirstOccurrences(Concat(items), EventIdOf()));
    out := Some(StableSort(rows, BySequence()));
  }

  lemma ConcatSnoc(items: seq<Option<seq<Row>>>, i: nat)
    requires i < |items|
    ensures Concat(items[..i + 1]) == Concat(items[..i]) + items[i].GetOr([])
  {
    assert items[..i + 1][..i] == items[..i];
  }

  lemma SequenceOrder()
    ensures TotalPreorder(BySequence())
  {}

  lemma SanitizedRowsHold(c: Codecs, kept: seq<Row>)
    requires forall i, j :: 0 <= i < j < |kept| ==> !SameId(kept[i], kept[j], EventIdOf())
    ensures var clean := SanitizeRows(c, kept);
            && (forall r :: r in kept ==> SanitizeRow(c, r) in clean)
            && (forall q :: q in clean ==> exists r :: r in kept && q == SanitizeRow(c, r))
            && DistinctIds(clean)
  {
    var clean := SanitizeRows(c, kept);
    forall r | r in kept
      ensures SanitizeRow(c, r) in clean
    {
      var i :| 0 <= i < |kept| && kept[i] == r;
      assert clean[i] in clean;
    }
    forall q | q in clean
      ensures exists r :: r in kept && q == SanitizeRow(c, r)
    {
      var i :| 0 <= i < |clean| && clean[i] == q;
      assert kept[i] in kept;
    }
    forall i, j | 0 <= i < j < |clean| && clean[i].eventId.Some?
      ensures clean[i].eventId != clean[j].eventId
    {
      assert !SameId(kept[i], kept[j], EventIdOf());
    }
  }

  ghost predicate DistinctIds(rows: seq<Row>) {
    forall i, j :: 0 <= i < j < |rows| && rows[i].eventId.Some? ==> rows[i].eventId != rows[j].eventId
  }

  /** Some row of `rows` carries the identity of `r`. */
  ghost predicate Carried(rows: seq<Row>, r: Row) {
    exists q :: q in rows && q.eventId == r.eventId
  }

  /** Each row of `all` without an identity leaves sanitized, and each identity is carried by some row that leaves. */
  ghost predicate EveryRowKept(c: Codecs, all: seq<Row>, out: seq<Row>) {
    forall r :: r in all ==> if r.eventId.None? then SanitizeRow(c, r) in out else Carried(out, r)
  }

  ghost predicate OnlySanitizedRows(c: Codecs, all: seq<Row>, out: seq<Row>) {
    forall q :: q in out ==> exists r :: r in all && q == SanitizeRow(c, r)
  }

  ghost predicate InJourneyOrder(rows: seq<Row>) {
    forall i, j :: 0 <= i < j < |rows| ==> rows[i].journeySequence <= rows[j].journeySequence
  }

  /** No row before `i` has its identity. */
  predicate FirstOfItsId(all: seq<Row>, i: nat)
    requires i < |all|
  {
    forall j :: 0 <= j < i ==> all[j].eventId != all[i].eventId
  }

  lemma {:induction false} FirstRowKept(all: seq<Row>, i: nat)
    requires i < |all| && all[i].eventId.Some? && FirstOfItsId(all, i)
    ensures all[i] in FirstOccurrences(all, EventIdOf())
  {
    var front, last := all[..|all| - 1], |all| - 1;
    if i < last {
      assert FirstOfItsId(front, i);
      FirstRowKept(front, i);
    } else {
      assert forall y :: y in front ==> exists j :: 0 <= j < last && all[j] == y;
    }
  }

  lemma KeptRowLeaves(c: Codecs, all: seq<Row>, r: Row)
    requires r in FirstOccurrences(all, EventIdOf())
    ensures SanitizeRow(c, r) in SortedKept(c, all)
  {
    FirstOccurrencesHold(all, EventIdOf());
    SortedRowsHold(c, FirstOccurrences(all, EventIdOf()));
  }

  /** Rows leave in journey order; each event identity found in any item leaves exactly once, as the first row that carries it,
      and each row without one is kept. */
  lemma TransformKeepsRows(c: Codecs, items: seq<Option<seq<Row>>>)
    requires Transform(c, items).Some?
    ensures var out := Transform(c, items).value;
            InJourneyOrder(out) && DistinctIds(out) && EveryRowKept(c, Concat(items), out)
    ensures var all := Concat(items);
            forall i :: 0 <= i < |all| && all[i].eventId.Some? && FirstOfItsId(all, i) ==>
              SanitizeRow(c, all[i]) in Transform(c, items).value
    ensures multiset(Filter(Transform(c, items).value, WithoutId())) ==
        multiset(SanitizeRows(c, Filter(Concat(items), WithoutId())))
  {
    var all := Concat(items);
    KeptAreOrdered(c, all);
    KeptCoverAll(c, all);
    RowsWithoutIdKept(c, all);
    forall i | 0 <= i < |all| && all[i].eventId.Some? && FirstOfItsId(all, i)
      ensures SanitizeRow(c, all[i]) in SortedKept(c, all)
    {
      FirstRowKept(all, i);
      KeptRowLeaves(c, all, all[i]);
    }
  }

  function WithoutId(): Row -> bool {
    (r: Row) => r.eventId.None?
  }

  lemma {:induction false} FirstOccurrencesWithoutId(rows: seq<Row>)
    ensures Filter(FirstOccurrences(rows, EventIdOf()), WithoutId()) == Filter(rows, WithoutId())
  {
    if rows != [] {
      var front, last := rows[..|rows| - 1], rows[|rows| - 1];
      assert rows == front + [last];
      FirstOccurrencesWithoutId(front);
      FilterSnoc(front, last, WithoutId());
      FilterSnoc(FirstOccurrences(front, EventIdOf()), last, WithoutId());
      assert FirstOccurrences(front, EventIdOf()) + [] == FirstOccurrences(front, EventIdOf());
    }
  }

  lemma {:induction false} SanitizeThenFilter(c: Codecs, rows: seq<Row>)
    ensures Filter(SanitizeRows(c, rows), WithoutId()) == SanitizeRows(c, Filter(rows, WithoutId()))
  {
    if rows != [] {
      var front, last := rows[..|rows| - 1], rows[|rows| - 1];
      assert rows == front + [last];
      SanitizeThenFilter(c, front);
      FilterSnoc(front, last, WithoutId());
      FilterSnoc(SanitizeRows(c, front), SanitizeRow(c, last), WithoutId());
      var kept := Filter(front, WithoutId());
      assert (kept + [last])[..|kept|] == kept;
    }
  }

  /** Rows without an identity all leave, as often as they came. */
  lemma RowsWithoutIdKept(c: Codecs, all: seq<Row>)
    ensures multiset(Filter(SortedKept(c, all), WithoutId())) == multiset(SanitizeRows(c, Filter(all, WithoutId())))
  {
    var clean := SanitizeRows(c, FirstOccurrences(all, EventIdOf()));
    FirstOccurrencesWithoutId(all);
    SanitizeThenFilter(c, FirstOccurrences(all, EventIdOf()));
    FilterMultiset(clean, WithoutId());
    FilterMultiset(SortedKept(c, all), WithoutId());
    assert multiset(Filter(SortedKept(c, all), WithoutId())) == multiset(Filter(clean, WithoutId()));
  }

  lemma KeptAreOrdered(c: Codecs, all: seq<Row>)
    ensures InJourneyOrder(SortedKept(c, all)) && DistinctIds(SortedKept(c, all))
  {
    FirstOccurrencesHold(all, EventIdOf());
    SortedRowsHold(c, FirstOccurrences(all, EventIdOf()));
    SortedIsInOrder(SortedKept(c, all));
  }

  lemma SortedIsInOrder(rows: seq<Row>)
    requires SortedBy(rows, BySequence())
    ensures InJourneyOrder(rows)
  {
    forall i, j | 0 <= i < j < |rows|
      ensures rows[i].journeySequence <= rows[j].journeySequence
    {
      assert BySequence()(rows[i], rows[j]);
    }
  }

  /** What is left of a value under its key. */
  function Left(c: Codecs, f: Field): Json {
    if c.sensitive(f.key) then Str("[redacted]") else SanitizeValue(c, f.value, 1)
  }

  /** What a row that leaves holds: under a name of its own what it held, redacted if the name is sensitive and sanitized
      otherwise; under any other, if it inherits none there, the same of the first key that turns into that name. */
  lemma RowReads(c: Codecs, r: Row, name: string)
    requires r.body.Obj? && name != "__proto__"
    ensures var out, own, source := SanitizeRow(c, r), Lookup(r.body.fields, name), Source(c, r.body.fields, name);
            && out.eventId == r.eventId && out.journeySequence == r.journeySequence && out.body.Obj?
            && Lookup(out.body.fields, name) ==
                 if own.Some? then Some(Left(c, Field(name, own.value)))
                 else if c.inherits(r.body, name) || source.None? then None
                 else Some(Left(c, source.value))
  {
    LeavingReads(c, r.body.fields, name);
    assert Obj(r.body.fields) == r.body;
  }

  lemma KeptCoverAll(c: Codecs, all: seq<Row>)
    ensures EveryRowKept(c, all, SortedKept(c, all))
  {
    var kept, id := FirstOccurrences(all, EventIdOf()), EventIdOf();
    assert forall k :: k in kept ==> SanitizeRow(c, k) in SortedKept(c, all) by {
      FirstOccurrencesHold(all, id);
      SortedRowsHold(c, kept);
    }
    assert forall r :: r in all ==> if r.eventId.None? then r in kept else exists k :: k in kept && SameId(k, r, id) by {
      FirstOccurrencesHold(all, id);
    }
    KeptRowsCarry(c, all, kept, SortedKept(c, all));
  }

  /** Every row that leaves is a sanitized input row. */
  lemma TransformAddsNothing(c: Codecs, items: seq<Option<seq<Row>>>)
    requires Transform(c, items).Some?
    ensures OnlySanitizedRows(c, Concat(items), Transform(c, items).value)
  {
    var kept := FirstOccurrences(Concat(items), EventIdOf());
    FirstOccurrencesHold(Concat(items), EventIdOf());
    SortedRowsHold(c, kept);
  }

  /** If every key that turns into a sensitive name is sensitive as it is written, no row leaves with an unredacted value under
      a sensitive name of its own. */
  lemma TransformExposesNothing(c: Codecs, items: seq<Option<seq<Row>>>, name: string)
    requires Transform(c, items).Some?
    requires forall r, f :: r in Concat(items) && r.body.Obj? && f in r.body.fields && c.sensitive(ToSnakeCase(c, f.key)) ==>
               c.sensitive(f.key)
    ensures forall q :: q in Transform(c, items).value && q.body.Obj? ==> !Exposes(c, q.body.fields, name)
  {
    TransformAddsNothing(c, items);
    forall q | q in Transform(c, items).value && q.body.Obj?
      ensures !Exposes(c, q.body.fields, name)
    {
      var r :| r in Concat(items) && q == SanitizeRow(c, r);
      if r.body.Obj? {
        NothingExposed(c, r.body.fields, name);
      }
    }
  }

  lemma KeptRowsCarry(c: Codecs, all: seq<Row>, kept: seq<Row>, out: seq<Row>)
    requires forall r :: r in all ==> if r.eventId.None? then r in kept else exists k :: k in kept && SameId(k, r, EventIdOf())
    requires forall k :: k in kept ==> SanitizeRow(c, k) in out
    ensures EveryRowKept(c, all, out)
  {
    forall r | r in all && r.eventId.Some?
      ensures Carried(out, r)
    {
      var k :| k in kept && SameId(k, r, EventIdOf());
      assert SanitizeRow(c, k) in out;
    }
  }

  lemma SortedRowsHold(c: Codecs, kept: seq<Row>)
    requires forall i, j :: 0 <= i < j < |kept| ==> !SameId(kept[i], kept[j], EventIdOf())
    ensures var out := StableSort(SanitizeRows(c, kept), BySequence());
            && SortedBy(out, BySequence())
            && (forall r :: r in kept ==> SanitizeRow(c, r) in out)
            && OnlySanitizedRows(c, kept, out)
            && DistinctIds(out)
  {
    var clean := SanitizeRows(c, kept);
    var out := StableSort(clean, BySequence());
    SequenceOrder();
    StableSortSorted(clean, BySequence());
    SanitizedRowsHold(c, kept);
    SameMembers(out, clean);
    ReorderedIds(clean, out);
  }

  /** Pairwise distinct identities stay distinct under any reordering. */
  lemma ReorderedIds(rows: seq<Row>, out: seq<Row>)
    requires multiset(rows) == multiset(out) && DistinctIds(rows)
    ensures DistinctIds(out)
  {
    forall i, j | 0 <= i < j < |out| && out[i].eventId.Some?
      ensures out[i].eventId != out[j].eventId
    {
      if out[i].eventId == out[j].eventId {
        SameMembers(rows, out);
        assert out[i] in rows && out[j] in rows;
        TwiceInMultiset(out, i, j);
        OnceInMultiset(rows, out[i]);
      }
    }
  }

  /** On rows already in journey order the final sort changes nothing. */
  lemma SortedInputKeepsOrder(c: Codecs, items: seq<Option<seq<Row>>>)
    requires Transform(c, items).Some?
    requires SortedBy(FirstOccurrences(Concat(items), EventIdOf()), BySequence())
    ensures Transform(c, items).value == SanitizeRows(c, FirstOccurrences(Concat(items), EventIdOf()))
  {
    StableSortNoOp(SanitizeRows(c, FirstOccurrences(Concat(items), EventIdOf())), BySequence());
  }
}
