/** The snake_case copies a row gets once it is sanitized, and what leaves under a sensitive name because of them. */
module Aliases {
  import opened Wrappers
  import opened Text
  import opened Codec
  import opened Sanitizer
  import Order

  predicate IsUpper(x: char) {
    'A' <= x <= 'Z'
  }

  predicate IsLower(x: char) {
    'a' <= x <= 'z'
  }

  /** An underscore between a small letter or digit and the capital behind it. */
  function SplitHumps(s: string): string {
    if |s| < 2 then s
    else if (IsLower(s[0]) || IsDigit(s[0])) && IsUpper(s[1]) then [s[0], '_'] + SplitHumps(s[1..])
    else [s[0]] + SplitHumps(s[1..])
  }

  /** An underscore before the last capital of a run that a small letter follows. */
  function SplitRuns(s: string): string {
    if |s| < 3 then s
    else if IsUpper(s[0]) && IsUpper(s[1]) && IsLower(s[2]) then [s[0], '_'] + SplitRuns(s[1..])
    else [s[0]] + SplitRuns(s[1..])
  }

  function ToSnakeCase(c: Codecs, key: string): string {
    c.lower(SplitRuns(SplitHumps(key)))
  }

  /** The row after its first `n` keys have been given their aliases; `row` is the row as it came. */
  function WithAliases(c: Codecs, row: Json, fields: seq<Field>, n: nat): seq<Field>
    requires n <= |fields|
  {
    if n == 0 then fields
    else
      var out, f := WithAliases(c, row, fields, n - 1), fields[n - 1];
      var snake := ToSnakeCase(c, f.key);
      if snake != f.key && Lookup(out, snake).None? && !c.inherits(row, snake) then out + [Field(snake, f.value)] else out
  }

  /** The loop over the keys the row has at first; `in` also finds the names a row inherits. */
  method AddSnakeCaseAliases(c: Codecs, row: Json, fields: seq<Field>) returns (out: seq<Field>)
    ensures out == WithAliases(c, row, fields, |fields|)
  {
    out := fields;
    for i := 0 to |fields|
      invariant out == WithAliases(c, row, fields, i)
    {
      var snakeKey := ToSnakeCase(c, fields[i].key);
      if snakeKey != fields[i].key && !(Lookup(out, snakeKey).Some? || c.inherits(row, snakeKey)) {
        out := out + [Field(snakeKey, fields[i].value)];
      }
    }
  }

  // ---------------------------------------------------------------- what an alias holds

  /** The first field whose key turns into `name`. An own `__proto__` key does not survive sanitizing. */
  function Source(c: Codecs, fields: seq<Field>, name: string): Option<Field> {
    if fields == [] then None
    else if fields[0].key != PROTO && ToSnakeCase(c, fields[0].key) == name then Some(fields[0])
    else Source(c, fields[1..], name)
  }

  lemma {:induction false} LookupSnoc(fields: seq<Field>, f: Field, key: string)
    ensures Lookup(fields + [f], key) ==
              if Lookup(fields, key).Some? then Lookup(fields, key) else if f.key == key then Some(f.value) else None
  {
    if fields == [] {
      assert [] + [f] == [f] && [f][1..] == [];
    } else {
      LookupSnoc(fields[1..], f, key);
      assert (fields + [f])[1..] == fields[1..] + [f];
    }
  }

  lemma {:induction false} SourceSnoc(c: Codecs, fields: seq<Field>, f: Field, name: string)
    ensures Source(c, fields + [f], name) ==
              if Source(c, fields, name).Some? then Source(c, fields, name)
              else if f.key != PROTO && ToSnakeCase(c, f.key) == name then Some(f) else None
  {
    if fields == [] {
      assert [] + [f] == [f] && [f][1..] == [];
    } else {
      SourceSnoc(c, fields[1..], f, name);
      assert (fields + [f])[1..] == fields[1..] + [f];
    }
  }

  lemma {:induction false} LookupMember(fields: seq<Field>, key: string)
    ensures Lookup(fields, key).Some? <==> exists f :: f in fields && f.key == key
  {
    if fields != [] {
      LookupMember(fields[1..], key);
      assert forall f :: f in fields <==> f == fields[0] || f in fields[1..];
    }
  }

  /** Every name reads as it did; a name the row neither has nor inherits reads as the first key that turns into it. */
  lemma {:induction false} AliasReads(c: Codecs, row: Json, fields: seq<Field>, n: nat, name: string)
    requires n <= |fields| && Lookup(fields, PROTO).None?
    ensures Lookup(WithAliases(c, row, fields, n), name) ==
              if Lookup(fields, name).Some? then Lookup(fields, name)
              else if c.inherits(row, name) || Source(c, fields[..n], name).None? then None
              else Some(Source(c, fields[..n], name).value.value)
  {
    if n > 0 {
      var f := fields[n - 1];
      var snake := ToSnakeCase(c, f.key);
      AliasReads(c, row, fields, n - 1, name);
      AliasReads(c, row, fields, n - 1, snake);
      LookupMember(fields, PROTO);
      LookupMember(fields, f.key);
      assert f in fields;
      assert fields[..n] == fields[..n - 1] + [f];
      SourceSnoc(c, fields[..n - 1], f, name);
      LookupSnoc(WithAliases(c, row, fields, n - 1), Field(snake, f.value), name);
    }
  }

  // ---------------------------------------------------------------- the row that leaves

  /** The row as it leaves: sanitized, then given its aliases. */
  function Leaving(c: Codecs, fields: seq<Field>): seq<Field> {
    var clean := SanitizeFields(c, fields, 0);
    WithAliases(c, Obj(fields), clean, |clean|)
  }

  function Cleaned(c: Codecs, f: Field): Json {
    if c.sensitive(f.key) then Str(REDACTED) else SanitizeValue(c, f.value, 1)
  }

  lemma SanitizedReads(c: Codecs, fields: seq<Field>, name: string)
    ensures Lookup(SanitizeFields(c, fields, 0), name) ==
              if name == PROTO || Lookup(fields, name).None? then None
              else Some(Cleaned(c, Field(name, Lookup(fields, name).value)))
  {
    FieldsRead(c, fields, name, 0);
  }

  lemma {:induction false} SanitizedSource(c: Codecs, fields: seq<Field>, name: string)
    ensures Source(c, SanitizeFields(c, fields, 0), name) ==
              match Source(c, fields, name)
              case None => None
              case Some(f) => Some(Field(f.key, Cleaned(c, f)))
  {
    if fields != [] {
      SanitizedSource(c, fields[1..], name);
      var all, rest := SanitizeFields(c, fields, 0), SanitizeFields(c, fields[1..], 0);
      if fields[0].key == PROTO {
        assert all == rest;
      } else {
        assert all[1..] == rest;
      }
    }
  }

  /** What a row that leaves holds under any name, in terms of the row that came. */
  lemma LeavingReads(c: Codecs, fields: seq<Field>, name: string)
    ensures Lookup(Leaving(c, fields), name) ==
              if name != PROTO && Lookup(fields, name).Some? then Some(Cleaned(c, Field(name, Lookup(fields, name).value)))
              else if c.inherits(Obj(fields), name) then None
              else match Source(c, fields, name)
                case None => None
                case Some(f) => Some(Cleaned(c, f))
  {
    var clean := SanitizeFields(c, fields, 0);
    SanitizedReads(c, fields, PROTO);
    SanitizedReads(c, fields, name);
    SanitizedSource(c, fields, name);
    AliasReads(c, Obj(fields), clean, |clean|, name);
    assert clean[..|clean|] == clean;
  }

  predicate Exposes(c: Codecs, fields: seq<Field>, name: string) {
    c.sensitive(name) && Lookup(fields, name).Some? && Lookup(fields, name) != Some(Str(REDACTED))
  }

  /** A row leaves with an unredacted value under a sensitive name exactly when that name is an alias made for a key that is
      not sensitive itself: sanitizing comes first and judges the key as it is written. */
  lemma ExposedExactly(c: Codecs, fields: seq<Field>, name: string)
    ensures Exposes(c, Leaving(c, fields), name) <==>
              && c.sensitive(name) && (name == PROTO || Lookup(fields, name).None?) && !c.inherits(Obj(fields), name)
              && Source(c, fields, name).Some?
              && var f := Source(c, fields, name).value;
                 !c.sensitive(f.key) && SanitizeValue(c, f.value, 1) != Str(REDACTED)
    ensures !Exposes(c, SanitizeFields(c, fields, 0), name)
  {
    LeavingReads(c, fields, name);
    SanitizedReads(c, fields, name);
  }

  /** When every key that turns into a sensitive name is sensitive as it is written, nothing is exposed. */
  lemma NothingExposed(c: Codecs, fields: seq<Field>, name: string)
    requires forall f :: f in fields && c.sensitive(ToSnakeCase(c, f.key)) ==> c.sensitive(f.key)
    ensures !Exposes(c, Leaving(c, fields), name)
  {
    ExposedExactly(c, fields, name);
    SourceMember(c, fields, name);
  }

  lemma {:induction false} SourceMember(c: Codecs, fields: seq<Field>, name: string)
    ensures Source(c, fields, name).Some? ==>
              var f := Source(c, fields, name).value; f in fields && ToSnakeCase(c, f.key) == name
  {
    if fields != [] {
      SourceMember(c, fields[1..], name);
    }
  }

  predicate NoCapital(s: string) {
    forall i :: 0 <= i < |s| ==> !IsUpper(s[i])
  }

  predicate AllCapitals(s: string) {
    forall i :: 0 <= i < |s| ==> IsUpper(s[i])
  }

  lemma {:induction false} CapitalsStay(s: string)
    requires AllCapitals(s)
    ensures SplitHumps(s) == s && SplitRuns(s) == s
  {
    if s != "" {
      CapitalsStay(s[1..]);
      assert [s[0]] + s[1..] == s;
    }
  }

  lemma HumpAt(x: char, capitals: string)
    requires (IsLower(x) || IsDigit(x)) && capitals != "" && AllCapitals(capitals)
    ensures SplitHumps([x] + capitals) == [x] + (['_'] + capitals)
  {
    assert ([x] + capitals)[1..] == capitals;
    CapitalsStay(capitals);
  }

  lemma {:induction false} HumpFound(small: string, capitals: string)
    requires small != "" && NoCapital(small) && (IsLower(small[|small| - 1]) || IsDigit(small[|small| - 1]))
    requires capitals != "" && AllCapitals(capitals)
    ensures SplitHumps(small + capitals) == small + (['_'] + capitals)
  {
    if |small| == 1 {
      assert small == [small[0]];
      HumpAt(small[0], capitals);
    } else {
      HumpFound(small[1..], capitals);
      Order.TailConcat(small, capitals);
      assert (small + capitals)[1] == small[1];
      Order.TailConcat(small, ['_'] + capitals);
      assert small + (['_'] + capitals) == [small[0]] + (small[1..] + (['_'] + capitals));
    }
  }

  lemma {:induction false} NoRunFound(small: string, capitals: string)
    requires NoCapital(small) && AllCapitals(capitals)
    ensures SplitRuns(small + capitals) == small + capitals
  {
    if small == "" {
      assert small + capitals == capitals;
      CapitalsStay(capitals);
    } else {
      NoRunFound(small[1..], capitals);
      Order.TailConcat(small, capitals);
      Regroup([small[0]], small[1..], capitals);
      assert [small[0]] + small[1..] == small;
    }
  }

  /** A run of capitals is split before its last capital when a small letter follows. */
  lemma {:induction false} RunSplit(run: string, x: char, y: char, rest: string)
    requires run != "" && AllCapitals(run) && IsUpper(x) && IsLower(y)
    ensures SplitRuns(run + ([x, y] + rest)) == run + (['_'] + SplitRuns([x, y] + rest))
  {
    var tail := [x, y] + rest;
    var s := run + tail;
    Order.TailConcat(run, tail);
    if |run| == 1 {
      assert s[1..] == tail && s[2] == y;
      assert run == [run[0]];
    } else {
      RunSplit(run[1..], x, y, rest);
      assert s[1] == run[1] && (s[2] == if |run| == 2 then x else run[2]);
      Regroup([run[0]], run[1..], ['_'] + SplitRuns(tail));
      assert [run[0]] + run[1..] == run;
    }
  }

  predicate AllSmall(s: string) {
    forall i :: 0 <= i < |s| ==> IsLower(s[i])
  }

  lemma {:induction false} SmallStay(s: string)
    requires AllSmall(s)
    ensures SplitHumps(s) == s && SplitRuns(s) == s
  {
    if s != "" {
      SmallStay(s[1..]);
      assert [s[0]] + s[1..] == s;
    }
  }

  lemma {:induction false} NoHump(capitals: string, small: string)
    requires AllCapitals(capitals) && AllSmall(small)
    ensures SplitHumps(capitals + small) == capitals + small
  {
    if capitals == "" {
      assert capitals + small == small;
      SmallStay(small);
    } else {
      NoHump(capitals[1..], small);
      Order.TailConcat(capitals, small);
      Regroup([capitals[0]], capitals[1..], small);
      assert [capitals[0]] + capitals[1..] == capitals;
    }
  }

  lemma WordStays(x: char, y: char, rest: string)
    requires IsUpper(x) && IsLower(y) && AllSmall(rest)
    ensures SplitRuns([x, y] + rest) == [x, y] + rest
  {
    var word := [x, y] + rest;
    SmallStay([y] + rest);
    assert word[1..] == [y] + rest && word[1] == y;
    assert [x] + ([y] + rest) == word;
  }

  /** So the key `HTTPServer` has the alias `http_server`: the run and the word that ends it, in small letters. */
  lemma RunAlias(c: Codecs, run: string, x: char, y: char, rest: string)
    requires run != "" && AllCapitals(run) && IsUpper(x) && IsLower(y) && AllSmall(rest)
    ensures ToSnakeCase(c, run + ([x, y] + rest)) == c.lower(run + (['_'] + ([x, y] + rest)))
  {
    var key := run + ([x, y] + rest);
    assert key == (run + [x]) + ([y] + rest);
    NoHump(run + [x], [y] + rest);
    RunSplit(run, x, y, rest);
    WordStays(x, y, rest);
  }

  /** Capitals behind small letters get an underscore. */
  lemma CapitalsSplit(small: string, capitals: string)
    requires small != "" && NoCapital(small) && (IsLower(small[|small| - 1]) || IsDigit(small[|small| - 1]))
    requires capitals != "" && AllCapitals(capitals)
    ensures SplitRuns(SplitHumps(small + capitals)) == small + (['_'] + capitals)
  {
    HumpFound(small, capitals);
    Regroup(small, ['_'], capitals);
    assert NoCapital(small + ['_']);
    NoRunFound(small + ['_'], capitals);
  }

  /** So a row with the one key "_gaXYZ" exposes its value under "_ga_xyz": the pattern for `_ga` keys wants an underscore next,
      which the alias has and the key has not. */
  lemma AliasCanExpose(c: Codecs, small: string, capitals: string, value: Json)
    requires small != "" && NoCapital(small) && (IsLower(small[|small| - 1]) || IsDigit(small[|small| - 1]))
    requires capitals != "" && AllCapitals(capitals)
    requires var key, name := small + capitals, c.lower(small + (['_'] + capitals));
             && !c.sensitive(key) && c.sensitive(name) && !c.inherits(Obj([Field(key, value)]), name)
    requires SanitizeValue(c, value, 1) != Str(REDACTED)
    ensures Exposes(c, Leaving(c, [Field(small + capitals, value)]), c.lower(small + (['_'] + capitals)))
  {
    var key, name := small + capitals, c.lower(small + (['_'] + capitals));
    var fields := [Field(key, value)];
    CapitalsSplit(small, capitals);
    assert IsUpper(key[|small|]) && NoCapital(PROTO);
    assert key != PROTO;
    assert fields[1..] == [] && key != name;
    assert Lookup(fields, name).None? && Source(c, fields, name) == Some(fields[0]);
    ExposedExactly(c, fields, name);
  }

  // ---------------------------------------------------------------- aliases of aliases

  lemma {:induction false} NothingToSplit(s: string)
    requires NoCapital(s)
    ensures SplitHumps(s) == s && SplitRuns(s) == s
  {
    if s != "" {
      NothingToSplit(s[1..]);
      assert [s[0]] + s[1..] == s;
    }
  }

  /** Lower-casing leaves no capital and nothing to do again. */
  ghost predicate Lowers(c: Codecs) {
    forall s: string :: c.lower(c.lower(s)) == c.lower(s) && NoCapital(c.lower(s))
  }

  predicate Settled(c: Codecs, row: Json, fields: seq<Field>, f: Field) {
    var snake := ToSnakeCase(c, f.key);
    snake == f.key || Lookup(fields, snake).Some? || c.inherits(row, snake)
  }

  lemma {:induction false} NothingToAdd(c: Codecs, row: Json, fields: seq<Field>, n: nat)
    requires n <= |fields| && forall f :: f in fields ==> Settled(c, row, fields, f)
    ensures WithAliases(c, row, fields, n) == fields
  {
    if n > 0 {
      NothingToAdd(c, row, fields, n - 1);
      assert Settled(c, row, fields, fields[n - 1]);
    }
  }

  lemma {:induction false} AddedFields(c: Codecs, row: Json, fields: seq<Field>, n: nat, f: Field)
    requires n <= |fields| && f in WithAliases(c, row, fields, n)
    ensures f in fields || exists g :: g in fields && f.key == ToSnakeCase(c, g.key)
  {
    if n > 0 && f !in WithAliases(c, row, fields, n - 1) {
      assert fields[n - 1] in fields;
    } else if n > 0 {
      AddedFields(c, row, fields, n - 1, f);
    }
  }

  /** A row that has its aliases gets no more: no alias has an alias of its own. */
  lemma AliasesAddedOnce(c: Codecs, row: Json, fields: seq<Field>)
    requires Lowers(c) && Lookup(fields, PROTO).None?
    ensures var out := WithAliases(c, row, fields, |fields|); WithAliases(c, row, out, |out|) == out
  {
    var out := WithAliases(c, row, fields, |fields|);
    forall f | f in out
      ensures Settled(c, row, out, f)
    {
      AddedFields(c, row, fields, |fields|, f);
      if f in fields {
        OwnKeySettled(c, row, fields, f);
      } else {
        NothingToSplit(f.key);
      }
    }
    NothingToAdd(c, row, out, |out|);
  }

  lemma OwnKeySettled(c: Codecs, row: Json, fields: seq<Field>, f: Field)
    requires f in fields && Lookup(fields, PROTO).None?
    ensures Settled(c, row, WithAliases(c, row, fields, |fields|), f)
  {
    var snake := ToSnakeCase(c, f.key);
    LookupMember(fields, PROTO);
    AliasReads(c, row, fields, |fields|, snake);
    assert fields[..|fields|] == fields;
    SourceFound(c, fields, f);
  }

  lemma {:induction false} SourceFound(c: Codecs, fields: seq<Field>, f: Field)
    requires f in fields && f.key != PROTO
    ensures Source(c, fields, ToSnakeCase(c, f.key)).Some?
  {
    if f != fields[0] {
      SourceFound(c, fields[1..], f);
    }
  }
}
