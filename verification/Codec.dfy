/** What the sanitizer gets from its runtime: JSON, percent-encoding and URL codecs, and the laws they obey. */
module Codec {
  import opened Wrappers
  import opened Text

  datatype Json =
    | Null
    | Bool(b: bool)
    | Num(digits: string)
    | Str(s: string)
    | Arr(items: seq<Json>)
    | Obj(fields: seq<Field>)

  /** An object is its own keys and values, in `Object.keys` order. */
  datatype Field = Field(key: string, value: Json)

  datatype Param = Param(key: string, value: string)

  /** A parsed URL: everything before the path, the normalised path, the query entries and the fragment. */
  datatype Url = Url(origin: string, path: string, params: seq<Param>, hash: string)

  /** `number` holds of the texts JSON prints for numbers, `authority` of the paths starting with two slashes whose rest names a
      host; `lower` is `toLowerCase`, and `inherits` says which names a row made from a value inherits. */
  datatype Codecs = Codecs(
    parseJson: string -> Option<Json>,
    stringify: Json -> string,
    encode: string -> string,
    decode: string -> Option<string>,
    parseAbsolute: string -> Option<Url>,
    parseRelative: string -> Option<Url>,
    href: Url -> string,
    search: seq<Param> -> string,
    number: string -> bool,
    authority: string -> bool,
    keyOrder: seq<string> -> bool,
    sensitive: string -> bool,
    lower: string -> string,
    inherits: (Json, string) -> bool)

  const PLACEHOLDER := "http://placeholder.invalid"
  const PROTO := "__proto__"

  function Keys(fields: seq<Field>): seq<string> {
    if fields == [] then [] else [fields[0].key] + Keys(fields[1..])
  }

  function Without(keys: seq<string>, key: string): seq<string> {
    if keys == [] then []
    else (if keys[0] == key then [] else [keys[0]]) + Without(keys[1..], key)
  }

  /** What `row[key]` reads of a row's own keys. */
  function Lookup(fields: seq<Field>, key: string): Option<Json> {
    if fields == [] then None
    else if fields[0].key == key then Some(fields[0].value)
    else Lookup(fields[1..], key)
  }

  /** A value the runtime can hold: numbers print as numbers, each object's keys form a list that `Object.keys` can return. */
  ghost predicate Proper(c: Codecs, v: Json) {
    match v
    case Num(digits) => c.number(digits)
    case Arr(items) => forall x :: x in items ==> Proper(c, x)
    case Obj(fields) => c.keyOrder(Keys(fields)) && forall f :: f in fields ==> Proper(c, f.value)
    case _ => true
  }

  predicate Container(v: Json) {
    v.Arr? || v.Obj?
  }

  predicate StartsAs(s: string, prefix: string) {
    |prefix| <= |s| && s[..|prefix|] == prefix
  }

  /** The absolute form: a scheme, then "://". */
  predicate IsAbsoluteUrl(s: string) {
    s != "" && IsLetter(s[0]) && SchemeThenSlashes(s[1..])
  }

  predicate SchemeThenSlashes(s: string) {
    StartsAs(s, "://") || (s != "" && (IsLetter(s[0]) || IsDigit(s[0]) || s[0] in "+.-") && SchemeThenSlashes(s[1..]))
  }

  /** The relative form: a leading slash, a question mark, and no white space at all. */
  predicate IsRelativeUrlWithQuery(s: string) {
    s != "" && s[0] == '/' && '?' in s && NoSpace(s)
  }

  predicate LooksLikeUrl(s: string) {
    IsAbsoluteUrl(s) || IsRelativeUrlWithQuery(s)
  }

  /** At least two `key=value` pieces joined by ampersands, keys non-empty, no white space. */
  predicate LooksLikeQueryString(s: string) {
    var pieces := Split(s, '&');
    |pieces| >= 2 && forall p :: p in pieces ==> NoSpace(p) && IndexOf(p, '=') >= 1
  }

  /** How a rewritten relative URL is printed: path, query and fragment, without the placeholder origin. */
  function RelativeText(c: Codecs, u: Url): string {
    u.path + c.search(u.params) + u.hash
  }

  function UrlText(c: Codecs, absolute: bool, u: Url): string {
    if absolute then c.href(u) else RelativeText(c, u)
  }

  function ParseUrl(c: Codecs, s: string): Option<Url> {
    if IsAbsoluteUrl(s) then c.parseAbsolute(s) else c.parseRelative(s)
  }

  /** If the text is read as a container, it begins with a bracket. */
  predicate StartsWithBracket(c: Codecs, s: string) {
    c.parseJson(s).Some? && Container(c.parseJson(s).value) ==> s != "" && s[0] in "{["
  }

  /** JSON.parse undoes JSON.stringify, yields proper values and ignores surrounding blanks; a container prints inside its
      brackets and is read from a text that, trimmed, begins with one (RFC 8259); leaving out one key leaves a possible key
      order. */
  ghost predicate JsonLaws(c: Codecs) {
    && (forall v: Json :: Container(v) && Proper(c, v) ==> c.parseJson(c.stringify(v)) == Some(v))
    && (forall v: Json :: Container(v) ==> Bracketed(c.stringify(v)))
    && (forall s: string {:trigger c.parseJson(Trim(s))} :: c.parseJson(s).Some? ==> c.parseJson(Trim(s)) == c.parseJson(s))
    && (forall s: string :: c.parseJson(s).Some? ==> Proper(c, c.parseJson(s).value))
    && (forall s: string {:trigger c.parseJson(Trim(s))} :: StartsWithBracket(c, Trim(s)))
    && (forall keys: seq<string> :: c.keyOrder(keys) ==> c.keyOrder(Without(keys, PROTO)))
  }

  predicate Bracketed(s: string) {
    |s| >= 2 && s[0] in "{[" && s[|s| - 1] in "}]"
  }

  /** Percent-encoding (RFC 3986, section 2.1): decoding undoes encoding, encoded text is escaped, nothing vanishes. */
  ghost predicate PercentLaws(c: Codecs) {
    && (forall s: string :: c.decode(c.encode(s)) == Some(s))
    && (forall s: string :: AllEscaped(c.encode(s)))
    && (forall s: string :: s != "" ==> c.encode(s) != "")
    && (forall s: string :: s != "" && c.decode(s).Some? ==> c.decode(s).value != "")
  }

  /** An absolute URL printed with a new, non-empty query is an absolute URL and reads back as itself. */
  predicate AbsoluteLaw(c: Codecs, s: string, ps: seq<Param>) {
    IsAbsoluteUrl(s) && c.parseAbsolute(s).Some? && ps != [] ==>
      var u := c.parseAbsolute(s).value.(params := ps);
      IsAbsoluteUrl(c.href(u)) && c.parseAbsolute(c.href(u)) == Some(u)
  }

  /** A relative URL printed with a new, non-empty query keeps the relative form. Read again it is the same URL against the
      placeholder origin, unless its path starts with two slashes: what follows them is then read as an authority, which
      leaves a shorter path, or no URL at all when it cannot be one. */
  predicate RelativeLaw(c: Codecs, s: string, ps: seq<Param>) {
    IsRelativeUrlWithQuery(s) && c.parseRelative(s).Some? && ps != [] ==>
      var u := c.parseRelative(s).value.(params := ps);
      var again := c.parseRelative(RelativeText(c, u));
      && '?' !in u.path
      && c.search(ps) != "" && c.search(ps)[0] == '?'
      && IsRelativeUrlWithQuery(RelativeText(c, u))
      && (if !StartsAs(u.path, "//") then again == Some(u.(origin := PLACEHOLDER))
          else if !c.authority(u.path) then again.None?
          else again.Some? && again.value.params == ps && again.value.hash == u.hash
               && '?' !in again.value.path && |again.value.path| < |u.path|)
  }

  ghost predicate UrlLaws(c: Codecs) {
    && (forall s: string, ps: seq<Param> :: AbsoluteLaw(c, s, ps))
    && (forall s: string, ps: seq<Param> :: RelativeLaw(c, s, ps))
  }

  ghost predicate Lawful(c: Codecs) {
    JsonLaws(c) && PercentLaws(c) && UrlLaws(c)
  }
}
