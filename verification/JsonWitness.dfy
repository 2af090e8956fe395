/** The JSON half of a codec that obeys all the laws: a printer of values and its reader. Texts are percent-encoded where JSON
    would use backslashes, and punctuation is simpler than JSON's. */
module JsonWitness {
  import opened Wrappers
  import opened Text
  import opened Codec
  import opened Percent

  // ---------------------------------------------------------------- a printer and its reader

  function Quoted(s: string): string {
    Encode(s) + "\""
  }

  /** This JSON's numbers are unsigned integers. */
  predicate IsNumber(digits: string) {
    digits != "" && forall c :: c in digits ==> IsDigit(c)
  }

  function Print(v: Json): string {
    match v
    case Null => "n"
    case Bool(b) => if b then "t" else "f"
    case Num(digits) => "#" + Quoted(digits)
    case Str(s) => "$" + Quoted(s)
    case Arr(items) => "[" + PrintItems(items)
    case Obj(fields) => "{" + PrintFields(fields)
  }

  function PrintItems(items: seq<Json>): string {
    if items == [] then "]" else Print(items[0]) + PrintItems(items[1..])
  }

  function PrintFields(fields: seq<Field>): string {
    if fields == [] then "}" else "," + (Quoted(fields[0].key) + (Print(fields[0].value) + PrintFields(fields[1..])))
  }

  datatype Reading<T> = Failed | Got(value: T, rest: string)

  function ReadQuoted(s: string): (r: Reading<string>)
    ensures r.Got? ==> |r.rest| < |s|
  {
    var i := IndexOf(s, '\"');
    if i == -1 then Failed
    else match Decode(s[..i])
      case None => Failed
      case Some(t) => Got(t, s[i + 1..])
  }

  function ReadValue(s: string): (r: Reading<Json>)
    ensures r.Got? ==> |r.rest| < |s|
    decreases |s|, 0
  {
    if s == "" then Failed
    else if s[0] == 'n' then Got(Null, s[1..])
    else if s[0] == 't' then Got(Bool(true), s[1..])
    else if s[0] == 'f' then Got(Bool(false), s[1..])
    else if s[0] == '#' then (match ReadQuoted(s[1..]) case Failed => Failed case Got(t, rest) => Got(Num(t), rest))
    else if s[0] == '$' then (match ReadQuoted(s[1..]) case Failed => Failed case Got(t, rest) => Got(Str(t), rest))
    else if s[0] == '[' then (match ReadItems(s[1..]) case Failed => Failed case Got(items, rest) => Got(Arr(items), rest))
    else if s[0] == '{' then (match ReadFields(s[1..]) case Failed => Failed case Got(fields, rest) => Got(Obj(fields), rest))
    else Failed
  }

  function ReadItems(s: string): (r: Reading<seq<Json>>)
    ensures r.Got? ==> |r.rest| < |s|
    decreases |s|, 1
  {
    if s == "" then Failed
    else if s[0] == ']' then Got([], s[1..])
    else match ReadValue(s)
      case Failed => Failed
      case Got(v, rest) =>
        match ReadItems(rest)
        case Failed => Failed
        case Got(items, after) => Got([v] + items, after)
  }

  function ReadFields(s: string): (r: Reading<seq<Field>>)
    ensures r.Got? ==> |r.rest| < |s|
    decreases |s|, 1
  {
    if s == "" then Failed
    else if s[0] == '}' then Got([], s[1..])
    else if s[0] != ',' then Failed
    else match ReadQuoted(s[1..])
      case Failed => Failed
      case Got(key, rest) =>
        match ReadValue(rest)
        case Failed => Failed
        case Got(v, after) =>
          match ReadFields(after)
          case Failed => Failed
          case Got(fields, last) => Got([Field(key, v)] + fields, last)
  }

  lemma ReadsQuoted(s: string, rest: string)
    ensures ReadQuoted(Quoted(s) + rest) == Got(s, rest)
  {
    EncodeEscaped(s);
    IndexOfPrefix(Encode(s), '\"', rest);
    var text := Quoted(s) + rest;
    assert text == Encode(s) + ['\"'] + rest;
    assert text[..|Encode(s)|] == Encode(s) && text[|Encode(s)| + 1..] == rest;
    DecodeEncode(s);
  }

  lemma AfterTag(tag: char, body: string, rest: string)
    ensures var text := [tag] + body + rest; text != "" && text[0] == tag && text[1..] == body + rest
  {}

  lemma ReadsScalar(v: Json, rest: string)
    requires v.Null? || v.Bool?
    ensures ReadValue(Print(v) + rest) == Got(v, rest)
  {
    AfterTag(Print(v)[0], "", rest);
    assert "" + rest == rest;
  }

  lemma ReadsText(v: Json, rest: string)
    requires v.Num? || v.Str?
    ensures ReadValue(Print(v) + rest) == Got(v, rest)
  {
    var text := if v.Num? then v.digits else v.s;
    AfterTag(if v.Num? then '#' else '$', Quoted(text), rest);
    ReadsQuoted(text, rest);
  }

  lemma ReadsArray(items: seq<Json>, rest: string)
    requires ReadItems(PrintItems(items) + rest) == Got(items, rest)
    ensures ReadValue(Print(Arr(items)) + rest) == Got(Arr(items), rest)
  {
    AfterTag('[', PrintItems(items), rest);
  }

  lemma ReadsObject(fields: seq<Field>, rest: string)
    requires ReadFields(PrintFields(fields) + rest) == Got(fields, rest)
    ensures ReadValue(Print(Obj(fields)) + rest) == Got(Obj(fields), rest)
  {
    AfterTag('{', PrintFields(fields), rest);
  }

  lemma {:induction false} ReadsValue(v: Json, rest: string)
    ensures ReadValue(Print(v) + rest) == Got(v, rest)
    decreases v, 0
  {
    match v
    case Null => ReadsScalar(v, rest);
    case Bool(b) => ReadsScalar(v, rest);
    case Num(digits) => ReadsText(v, rest);
    case Str(s) => ReadsText(v, rest);
    case Arr(items) =>
      ReadsItems(items, rest);
      ReadsArray(items, rest);
    case Obj(fields) =>
      ReadsFields(fields, rest);
      ReadsObject(fields, rest);
  }

  lemma NoValueCloses(v: Json)
    ensures Print(v) != "" && Print(v)[0] != ']'
  {}

  lemma {:induction false} ReadsItems(items: seq<Json>, rest: string)
    ensures ReadItems(PrintItems(items) + rest) == Got(items, rest)
    decreases items, 1
  {
    var text := PrintItems(items) + rest;
    if items == [] {
      assert text[1..] == rest;
    } else {
      var more := PrintItems(items[1..]) + rest;
      assert text == Print(items[0]) + more;
      ReadsValue(items[0], more);
      NoValueCloses(items[0]);
      ReadsItems(items[1..], rest);
      assert [items[0]] + items[1..] == items;
    }
  }

  lemma {:induction false} ReadsFields(fields: seq<Field>, rest: string)
    ensures ReadFields(PrintFields(fields) + rest) == Got(fields, rest)
    decreases fields, 1
  {
    var text := PrintFields(fields) + rest;
    if fields == [] {
      assert text[1..] == rest;
    } else {
      var more := PrintFields(fields[1..]) + rest;
      assert text == "," + (Quoted(fields[0].key) + (Print(fields[0].value) + more));
      ReadsValue(fields[0].value, more);
      ReadsFields(fields[1..], rest);
      ReadsOneField(fields[0], more, fields[1..], rest);
      assert [fields[0]] + fields[1..] == fields;
    }
  }

  lemma ReadsOneField(f: Field, more: string, others: seq<Field>, rest: string)
    requires ReadValue(Print(f.value) + more) == Got(f.value, more) && ReadFields(more) == Got(others, rest)
    ensures ReadFields("," + (Quoted(f.key) + (Print(f.value) + more))) == Got([f] + others, rest)
  {
    var body := Print(f.value) + more;
    ReadsQuoted(f.key, body);
    assert ("," + (Quoted(f.key) + body))[1..] == Quoted(f.key) + body;
  }

  lemma {:induction false} ItemsEnd(items: seq<Json>)
    ensures PrintItems(items) != "" && PrintItems(items)[|PrintItems(items)| - 1] == ']'
    decreases |items|
  {
    if items != [] {
      ItemsEnd(items[1..]);
    }
  }

  lemma {:induction false} FieldsEnd(fields: seq<Field>)
    ensures PrintFields(fields) != "" && PrintFields(fields)[|PrintFields(fields)| - 1] == '}'
    decreases |fields|
  {
    if fields != [] {
      FieldsEnd(fields[1..]);
    }
  }

  predicate NoRepeats(keys: seq<string>) {
    keys == [] || (keys[0] !in keys[1..] && NoRepeats(keys[1..]))
  }

  /** Numbers print as numbers and no object repeats a key. */
  predicate Printable(v: Json) {
    match v
    case Num(digits) => IsNumber(digits)
    case Arr(items) => forall x :: x in items ==> Printable(x)
    case Obj(fields) => NoRepeats(Keys(fields)) && forall f :: f in fields ==> Printable(f.value)
    case _ => true
  }

  function Parse(s: string): Option<Json> {
    if s == "" || IsSpace(s[0]) || IsSpace(s[|s| - 1]) then None
    else match ReadValue(s)
      case Failed => None
      case Got(v, rest) => if rest == "" && Printable(v) then Some(v) else None
  }

  lemma ContainerRoundTrip(v: Json)
    requires Container(v)
    ensures Bracketed(Print(v)) && (Printable(v) ==> Parse(Print(v)) == Some(v))
  {
    if v.Arr? { ItemsEnd(v.items); } else { FieldsEnd(v.fields); }
    ReadsValue(v, "");
    assert Print(v) + "" == Print(v);
  }

  /** Only a text that begins with a bracket is read as a container. */
  lemma ContainerStarts(s: string)
    ensures Parse(s).Some? && Container(Parse(s).value) ==> s[0] in "{["
  {}

  lemma {:induction false} WithoutNoRepeats(keys: seq<string>, key: string)
    ensures forall k :: k in Without(keys, key) ==> k in keys
    ensures NoRepeats(keys) ==> NoRepeats(Without(keys, key))
  {
    if keys != [] {
      WithoutNoRepeats(keys[1..], key);
      var rest := Without(keys[1..], key);
      assert keys[0] != key ==> Without(keys, key)[1..] == rest;
      assert keys[0] == key ==> Without(keys, key) == rest;
    }
  }
}
