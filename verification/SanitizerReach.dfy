/** How deep the sanitizer reaches: whatever can be read out of a value along a path of at most 24 levels, through JSON held in
    strings, URLs, query strings and encoded parameters, is read out of the sanitized value with its secrets replaced. */
module SanitizerReach {
  import opened Wrappers
  import opened Text
  import opened Codec
  import opened Sanitizer
  import opened SanitizerIdempotence
  import opened SanitizerRedaction
  import Aliases

  // ---------------------------------------------------------------- the forms of text, character by character

  /** A letter, then letters, digits, plus signs, dots or hyphens, then "://". */
  ghost predicate AbsoluteForm(s: string) {
    exists n :: 1 <= n && SchemeEnds(s, n)
  }

  predicate SchemeEnds(s: string, n: nat) {
    && n + 3 <= |s| && s[n] == ':' && s[n + 1] == '/' && s[n + 2] == '/'
    && (n >= 1 ==> IsLetter(s[0]))
    && forall i :: 1 <= i < n ==> SchemeChar(s[i])
  }

  predicate SchemeChar(x: char) {
    IsLetter(x) || IsDigit(x) || x == '+' || x == '.' || x == '-'
  }

  ghost predicate RelativeForm(s: string) {
    s != "" && s[0] == '/' && (exists i :: 0 <= i < |s| && s[i] == '?') && forall i :: 0 <= i < |s| ==> !IsSpace(s[i])
  }

  ghost predicate UrlForm(s: string) {
    AbsoluteForm(s) || RelativeForm(s)
  }

  /** Some text, an equals sign, and no white space; the first equals sign ends the key. */
  ghost predicate KeyedPiece(p: string) {
    && (exists i :: 1 <= i < |p| && p[i] == '=' && forall j :: 0 <= j < i ==> p[j] != '=')
    && forall i :: 0 <= i < |p| ==> !IsSpace(p[i])
  }

  ghost predicate QueryForm(s: string) {
    |Split(s, '&')| >= 2 && forall p :: p in Split(s, '&') ==> KeyedPiece(p)
  }

  /** Without surrounding white space the text is read as an array or an object. */
  predicate JsonForm(c: Codecs, s: string) {
    c.parseJson(Trim(s)).Some? && (c.parseJson(Trim(s)).value.Arr? || c.parseJson(Trim(s)).value.Obj?)
  }

  /** What a parameter may be taken for after some rounds of decoding; a query string only once it has been decoded. */
  ghost predicate Recognised(c: Codecs, s: string, rounds: nat) {
    UrlForm(s) || JsonForm(c, s) || (rounds >= 1 && QueryForm(s))
  }

  lemma SlashesFirst(s: string)
    ensures StartsAs(s, "://") <==> SchemeTail(s, 0)
  {
    if |s| >= 3 {
      assert s[..3] == [s[0], s[1], s[2]];
    }
  }

  lemma {:induction false} SchemeExactly(s: string)
    ensures SchemeThenSlashes(s) <==> exists n: nat :: SchemeTail(s, n)
  {
    SlashesFirst(s);
    if !StartsAs(s, "://") && s != "" {
      SchemeExactly(s[1..]);
      if SchemeThenSlashes(s) {
        var n: nat :| SchemeTail(s[1..], n);
        assert SchemeTail(s, n + 1) by {
          assert forall i :: 1 <= i < n + 1 ==> s[i] == s[1..][i - 1];
        }
      }
      if exists n: nat :: SchemeTail(s, n) {
        var n: nat :| SchemeTail(s, n);
        assert n > 0 && SchemeTail(s[1..], n - 1);
      }
    }
  }

  /** The rest of a scheme, then the slashes. */
  predicate SchemeTail(s: string, n: nat) {
    && n + 3 <= |s| && s[n] == ':' && s[n + 1] == '/' && s[n + 2] == '/' && forall i :: 0 <= i < n ==> SchemeChar(s[i])
  }

  lemma AbsoluteExactly(s: string)
    ensures IsAbsoluteUrl(s) <==> AbsoluteForm(s)
  {
    if s != "" {
      SchemeExactly(s[1..]);
      if IsAbsoluteUrl(s) {
        var n: nat :| SchemeTail(s[1..], n);
        assert SchemeEnds(s, n + 1) by {
          assert forall i :: 1 <= i < n + 1 ==> s[i] == s[1..][i - 1];
        }
      }
      if AbsoluteForm(s) {
        var n :| 1 <= n && SchemeEnds(s, n);
        assert SchemeTail(s[1..], n - 1);
      }
    }
  }

  lemma UrlExactly(s: string)
    ensures LooksLikeUrl(s) <==> UrlForm(s)
    ensures IsRelativeUrlWithQuery(s) <==> RelativeForm(s)
  {
    AbsoluteExactly(s);
    if RelativeForm(s) {
      assert NoSpace(s);
    }
    if NoSpace(s) {
      assert forall i :: 0 <= i < |s| ==> s[i] in s;
    }
  }

  lemma NoSpaceExactly(s: string)
    ensures NoSpace(s) <==> forall i :: 0 <= i < |s| ==> !IsSpace(s[i])
  {
    if NoSpace(s) {
      assert forall i :: 0 <= i < |s| ==> s[i] in s;
    }
  }

  lemma FirstEquals(p: string)
    ensures IndexOf(p, '=') >= 1 <==> exists i :: 1 <= i < |p| && p[i] == '=' && forall j :: 0 <= j < i ==> p[j] != '='
  {
    var k := IndexOf(p, '=');
    if i :| 1 <= i < |p| && p[i] == '=' && forall j :: 0 <= j < i ==> p[j] != '=' {
      assert p[i] in p;
      assert k >= i;
    }
    if k >= 1 {
      assert forall j :: 0 <= j < k ==> p[j] in p[..k];
    }
  }

  lemma KeyedExactly(p: string)
    ensures NoSpace(p) && IndexOf(p, '=') >= 1 <==> KeyedPiece(p)
  {
    NoSpaceExactly(p);
    FirstEquals(p);
  }

  lemma QueryExactly(s: string)
    ensures LooksLikeQueryString(s) <==> QueryForm(s)
  {
    forall p
      ensures NoSpace(p) && IndexOf(p, '=') >= 1 <==> KeyedPiece(p)
    {
      KeyedExactly(p);
    }
  }

  lemma JsonExactly(c: Codecs, s: string)
    requires JsonLaws(c)
    ensures LooksLikeJson(c, Trim(s)) <==> JsonForm(c, s)
    ensures c.parseJson(s).Some? && Container(c.parseJson(s).value) ==> JsonForm(c, s)
  {
    if c.parseJson(s).Some? {
      assert c.parseJson(Trim(s)) == c.parseJson(s);
    }
    if JsonForm(c, s) {
      assert c.parseJson(Trim(s)).Some?;
    }
  }

  // ---------------------------------------------------------------- reading along a path

  /** A value, or a parameter as it stands, possibly encoded. */
  datatype Node = Value(v: Json) | Encoded(text: string)

  /** An element, a key, a string read as JSON, a parameter of a string that is a URL or a query, or a parameter decoded so many
      times. Each is one level. */
  datatype Step = Index(i: nat) | Key(key: string) | InJson | InUrl(i: nat) | InQuery(i: nat) | Decoded(rounds: nat)

  /** A URL that reads back from what is printed of it: absolute, or without a host of its own and two slashes to begin with. */
  ghost function ReadUrl(c: Codecs, s: string): Option<Url> {
    if AbsoluteForm(s) then c.parseAbsolute(s)
    else if RelativeForm(s) && c.parseRelative(s).Some? && c.parseRelative(s).value.origin == PLACEHOLDER
        && !StartsAs(c.parseRelative(s).value.path, "//") then c.parseRelative(s)
    else None
  }

  function FormText(c: Codecs, s: string): string {
    match c.decode(ReplacePlus(s))
    case Some(t) => t
    case None => s
  }

  function ReadPiece(c: Codecs, p: string): Param {
    var k := IndexOf(p, '=');
    if k < 0 then Param(FormText(c, p), "") else Param(FormText(c, p[..k]), FormText(c, p[k + 1..]))
  }

  ghost function ReadQuery(c: Codecs, s: string): seq<Param> {
    if QueryForm(s) && !UrlForm(s) && !JsonForm(c, s)
    then seq(|Split(s, '&')|, i requires 0 <= i < |Split(s, '&')| => ReadPiece(c, Split(s, '&')[i]))
    else []
  }

  ghost function UrlParams(c: Codecs, s: string): seq<Param> {
    if ReadUrl(c, s).Some? then ReadUrl(c, s).value.params else []
  }

  /** The text after so many rounds of decoding, none of which came upon anything recognised or changed nothing. */
  ghost function DecodedAt(c: Codecs, s: string, rounds: nat): Option<string> {
    if rounds == 0 then Some(s)
    else match DecodedAt(c, s, rounds - 1)
      case None => None
      case Some(t) => if Recognised(c, t, rounds - 1) || c.decode(t) == Some(t) then None else c.decode(t)
  }

  ghost function Follow(c: Codecs, node: Node, step: Step): Option<Node> {
    match step
    case Index(i) => if node.Value? && node.v.Arr? && i < |node.v.items| then Some(Value(node.v.items[i])) else None
    case Key(key) =>
      if node.Value? && node.v.Obj? && Lookup(node.v.fields, key).Some?
      then Some(Value(Lookup(node.v.fields, key).value)) else None
    case InJson =>
      if node.Value? && node.v.Str? && c.parseJson(node.v.s).Some? && Container(c.parseJson(node.v.s).value)
      then Some(Value(c.parseJson(node.v.s).value)) else None
    case InUrl(i) =>
      if node.Value? && node.v.Str? && i < |UrlParams(c, node.v.s)| then Some(Encoded(UrlParams(c, node.v.s)[i].value)) else None
    case InQuery(i) =>
      if node.Value? && node.v.Str? && i < |ReadQuery(c, node.v.s)| then Some(Encoded(ReadQuery(c, node.v.s)[i].value)) else None
    case Decoded(rounds) =>
      if node.Encoded? && node.text != "" && rounds <= 3 && DecodedAt(c, node.text, rounds).Some?
          && Recognised(c, DecodedAt(c, node.text, rounds).value, rounds)
      then Some(Value(Str(DecodedAt(c, node.text, rounds).value))) else None
  }

  /** The key the step goes by, if it goes by one. */
  ghost function KeyOf(c: Codecs, node: Node, step: Step): Option<string> {
    match step
    case Key(key) => Some(key)
    case InUrl(i) =>
      if node.Value? && node.v.Str? && i < |UrlParams(c, node.v.s)| then Some(UrlParams(c, node.v.s)[i].key) else None
    case InQuery(i) =>
      if node.Value? && node.v.Str? && i < |ReadQuery(c, node.v.s)| then Some(ReadQuery(c, node.v.s)[i].key) else None
    case _ => None
  }

  ghost predicate Secret(c: Codecs, node: Node, step: Step) {
    KeyOf(c, node, step).Some? && c.sensitive(KeyOf(c, node, step).value)
  }

  /** The step leads from one node to the next, by no sensitive key and not by `__proto__`. */
  ghost predicate Leads(c: Codecs, node: Node, step: Step, next: Node) {
    Follow(c, node, step) == Some(next) && !Secret(c, node, step) && step != Key("__proto__")
  }

  /** The nodes met along a path, one more than it has steps. Each is determined by the one before it. */
  ghost predicate Trail(c: Codecs, nodes: seq<Node>, path: seq<Step>) {
    |nodes| == |path| + 1 && forall i :: 0 <= i < |path| ==> Leads(c, nodes[i], path[i], nodes[i + 1])
  }

  /** A secret: the step can be taken, by a sensitive key other than `__proto__`. */
  ghost predicate HoldsSecret(c: Codecs, node: Node, step: Step) {
    Follow(c, node, step).Some? && Secret(c, node, step) && step != Key("__proto__")
  }

  function Sanitized(c: Codecs, node: Node, depth: nat): Node {
    match node
    case Value(v) => Value(SanitizeValue(c, v, depth))
    case Encoded(text) => Encoded(SanitizeParamValue(c, text, depth))
  }

  // ---------------------------------------------------------------- one step

  lemma {:induction false} ItemsRead(c: Codecs, items: seq<Json>, depth: nat)
    requires depth <= 24
    ensures var all := SanitizeItems(c, items, depth);
            |all| == |items| && forall i :: 0 <= i < |items| ==> all[i] == SanitizeValue(c, items[i], depth + 1)
  {
    if items != [] {
      ItemsRead(c, items[1..], depth);
    }
  }

  /** The step is taken in the sanitized value as in the value, one level further down. */
  ghost predicate Carries(c: Codecs, node: Node, step: Step, depth: nat) {
    && Follow(c, node, step).Some?
    && Follow(c, Sanitized(c, node, depth), step) == Some(Sanitized(c, Follow(c, node, step).value, depth + 1))
    && KeyOf(c, Sanitized(c, node, depth), step) == KeyOf(c, node, step)
  }

  lemma IndexCarries(c: Codecs, node: Node, i: nat, depth: nat)
    requires depth <= 24 && Follow(c, node, Index(i)).Some?
    ensures Carries(c, node, Index(i), depth)
  {
    ItemsRead(c, node.v.items, depth);
  }

  lemma KeyCarries(c: Codecs, node: Node, key: string, depth: nat)
    requires depth <= 24 && Follow(c, node, Key(key)).Some? && !c.sensitive(key) && key != "__proto__"
    ensures Carries(c, node, Key(key), depth)
  {
    FieldsRead(c, node.v.fields, key, depth);
  }

  lemma SanitizedAsJson(c: Codecs, s: string, depth: nat)
    requires Lawful(c) && depth <= 24 && c.parseJson(s).Some? && Container(c.parseJson(s).value)
    ensures SanitizeStringValue(c, s, depth) == c.stringify(SanitizeValue(c, c.parseJson(s).value, depth + 1))
  {
    JsonExactly(c, s);
    assert Trim("") == "";
  }

  lemma JsonCarries(c: Codecs, node: Node, depth: nat)
    requires Lawful(c) && depth <= 24 && Follow(c, node, InJson).Some?
    ensures Carries(c, node, InJson, depth)
  {
    var parsed := c.parseJson(node.v.s).value;
    SanitizedAsJson(c, node.v.s, depth);
    assert Proper(c, parsed);
    SanitizedProper(c, parsed, depth + 1);
    PrintedContainer(c, SanitizeValue(c, parsed, depth + 1));
  }

  lemma {:induction false} ParamsRead(c: Codecs, ps: seq<Param>, depth: nat)
    requires depth <= 24
    ensures var all := SanitizeParams(c, ps, depth);
            |all| == |ps| && forall i :: 0 <= i < |ps| ==> all[i] == SanitizedParam(c, ps[i], depth)
  {
    if ps != [] {
      ParamsRead(c, ps[1..], depth);
    }
  }

  lemma SanitizedAsUrl(c: Codecs, s: string, depth: nat)
    requires depth <= 24 && UrlForm(s)
    ensures SanitizeStringValue(c, s, depth) == SanitizeUrlLike(c, s, depth)
  {
    UrlExactly(s);
    UrlIsNotJson(c, s);
  }

  /** A URL that can be read back is read back with its parameters sanitized. */
  lemma UrlReadBack(c: Codecs, s: string, depth: nat)
    requires Lawful(c) && depth <= 24 && UrlParams(c, s) != []
    ensures UrlParams(c, SanitizeStringValue(c, s, depth)) == SanitizeParams(c, UrlParams(c, s), depth)
  {
    UrlExactly(s);
    AbsoluteExactly(s);
    SanitizedAsUrl(c, s, depth);
    var u := ReadUrl(c, s).value;
    var ps := SanitizeParams(c, u.params, depth);
    ParamsRead(c, u.params, depth);
    if HasSensitive(c, u.params) || ps != u.params {
      var after := UrlText(c, IsAbsoluteUrl(s), u.(params := ps));
      UrlExactly(after);
      AbsoluteExactly(after);
      assert AbsoluteLaw(c, s, ps) && RelativeLaw(c, s, ps);
    }
  }

  lemma UrlCarries(c: Codecs, node: Node, i: nat, depth: nat)
    requires Lawful(c) && depth <= 24 && Follow(c, node, InUrl(i)).Some? && !Secret(c, node, InUrl(i))
    ensures Carries(c, node, InUrl(i), depth)
  {
    UrlReadBack(c, node.v.s, depth);
    ParamsRead(c, UrlParams(c, node.v.s), depth);
  }

  /** A relative URL that does not read back is still printed with its secrets replaced. */
  lemma RelativeSecretsAreGone(c: Codecs, s: string, u: Url, i: nat, depth: nat) returns (ps: seq<Param>)
    requires depth <= 24 && RelativeForm(s) && c.parseRelative(s) == Some(u)
    requires i < |u.params| && c.sensitive(u.params[i].key)
    ensures SanitizeStringValue(c, s, depth) == u.path + c.search(ps) + u.hash
    ensures |ps| == |u.params| && ps[i] == Param(u.params[i].key, "[redacted]")
  {
    ps := SanitizeParams(c, u.params, depth);
    UrlExactly(s);
    SanitizedAsUrl(c, s, depth);
    ParamsRead(c, u.params, depth);
    assert u.params[i] in u.params;
  }

  lemma PieceRead(c: Codecs, p: string)
    requires KeyedPiece(p)
    ensures ReadPiece(c, p) == Param(PieceKey(c, p), PieceValue(c, p))
  {
    KeyedExactly(p);
  }

  lemma PieceReadBack(c: Codecs, p: string, depth: nat)
    requires Lawful(c) && depth <= 24 && KeyedPiece(p)
    ensures var key := PieceKey(c, p);
            var value := if c.sensitive(key) then REDACTED else SanitizeParamValue(c, PieceValue(c, p), depth + 1);
            var after := c.encode(key) + "=" + c.encode(value);
            QueryPiece(after) && ReadPiece(c, after) == SanitizedParam(c, ReadPiece(c, p), depth)
  {
    var key := PieceKey(c, p);
    var value := if c.sensitive(key) then REDACTED else SanitizeParamValue(c, PieceValue(c, p), depth + 1);
    KeyedExactly(p);
    PieceRead(c, p);
    PieceKeyNonEmpty(c, p);
    EncodedPiece(c, key, value);
    KeyedExactly(c.encode(key) + "=" + c.encode(value));
    PieceRead(c, c.encode(key) + "=" + c.encode(value));
  }

  /** The piece that stands for one piece afterwards. */
  function PieceAfter(c: Codecs, p: string, depth: nat): string
    requires depth <= 24
  {
    var key := PieceKey(c, p);
    c.encode(key) + "=" + c.encode(if c.sensitive(key) then REDACTED else SanitizeParamValue(c, PieceValue(c, p), depth + 1))
  }

  lemma {:induction false} PiecesAfter(c: Codecs, pieces: seq<string>, depth: nat)
    requires depth <= 24
    ensures var after := SanitizePieces(c, pieces, depth);
            |after| == |pieces| && forall i :: 0 <= i < |pieces| ==> after[i] == PieceAfter(c, pieces[i], depth)
  {
    if pieces != [] {
      PiecesAfter(c, pieces[1..], depth);
    }
  }

  lemma PiecesReadBack(c: Codecs, pieces: seq<string>, depth: nat)
    requires Lawful(c) && depth <= 24 && forall p :: p in pieces ==> KeyedPiece(p)
    ensures var after := SanitizePieces(c, pieces, depth);
            && (forall p :: p in after ==> QueryPiece(p))
            && forall i :: 0 <= i < |pieces| ==> ReadPiece(c, after[i]) == SanitizedParam(c, ReadPiece(c, pieces[i]), depth)
  {
    var after := SanitizePieces(c, pieces, depth);
    PiecesAfter(c, pieces, depth);
    forall i | 0 <= i < |pieces|
      ensures QueryPiece(after[i]) && ReadPiece(c, after[i]) == SanitizedParam(c, ReadPiece(c, pieces[i]), depth)
    {
      PieceReadBack(c, pieces[i], depth);
    }
  }

  lemma SanitizedAsQuery(c: Codecs, s: string, depth: nat)
    requires Lawful(c) && depth <= 24 && ReadQuery(c, s) != []
    ensures SanitizeStringValue(c, s, depth) == Join(SanitizePieces(c, Split(s, '&'), depth), '&')
  {
    UrlExactly(s);
    JsonExactly(c, s);
    QueryExactly(s);
  }

  /** A query is read back with its parameters sanitized. */
  lemma QueryReadBack(c: Codecs, s: string, depth: nat)
    requires Lawful(c) && depth <= 24 && ReadQuery(c, s) != []
    ensures var after := ReadQuery(c, SanitizeStringValue(c, s, depth));
            && |after| == |ReadQuery(c, s)|
            && forall i :: 0 <= i < |after| ==> after[i] == SanitizedParam(c, ReadQuery(c, s)[i], depth)
  {
    var pieces := Split(s, '&');
    var once := SanitizePieces(c, pieces, depth);
    var after := Join(once, '&');
    SanitizedAsQuery(c, s, depth);
    PiecesReadBack(c, pieces, depth);
    JoinedIsQueryOnly(c, once);
    SplitJoin(once, '&');
    UrlExactly(after);
    JsonExactly(c, after);
    QueryExactly(after);
  }

  function Pieces(c: Codecs, ps: seq<Param>): (r: seq<string>)
    ensures |r| == |ps|
  {
    seq(|ps|, i requires 0 <= i < |ps| => c.encode(ps[i].key) + "=" + c.encode(ps[i].value))
  }

  /** Two or more parameters, encoded and joined as a query, are read as the same parameters. */
  lemma QueryIsRead(c: Codecs, ps: seq<Param>)
    requires Lawful(c) && |ps| >= 2 && forall p :: p in ps ==> p.key != ""
    ensures var text := Join(Pieces(c, ps), '&'); ReadQuery(c, text) == ps && Recognised(c, text, 1)
  {
    var pieces := Pieces(c, ps);
    var text := Join(pieces, '&');
    forall i | 0 <= i < |ps|
      ensures QueryPiece(pieces[i]) && ReadPiece(c, pieces[i]) == ps[i]
    {
      EncodedPiece(c, ps[i].key, ps[i].value);
      KeyedExactly(pieces[i]);
      PieceRead(c, pieces[i]);
    }
    JoinedIsQueryOnly(c, pieces);
    SplitJoin(pieces, '&');
    UrlExactly(text);
    JsonExactly(c, text);
    QueryExactly(text);
  }

  lemma QueryCarries(c: Codecs, node: Node, i: nat, depth: nat)
    requires Lawful(c) && depth <= 24 && Follow(c, node, InQuery(i)).Some? && !Secret(c, node, InQuery(i))
    ensures Carries(c, node, InQuery(i), depth)
  {
    QueryReadBack(c, node.v.s, depth);
  }

  lemma ShapeRecognised(c: Codecs, s: string, rounds: nat)
    requires JsonLaws(c)
    ensures ShapeOf(c, s, rounds) != Plain <==> Recognised(c, s, rounds)
    ensures rounds >= 1 || LooksLikeUrl(s) || LooksLikeJson(c, Trim(s)) ==> ShapeOf(c, s, rounds) == ShapeOf(c, s, 1)
  {
    UrlExactly(s);
    JsonExactly(c, s);
    QueryExactly(s);
  }

  /** One more round: nothing was recognised before it, and it changed the text. */
  lemma OneMoreRound(c: Codecs, s: string, rounds: nat)
    requires DecodedAt(c, s, rounds + 1).Some?
    ensures DecodedAt(c, s, rounds).Some?
    ensures var t, next := DecodedAt(c, s, rounds).value, DecodedAt(c, s, rounds + 1).value;
            !Recognised(c, t, rounds) && c.decode(t) == Some(next) && next != t
  {}

  lemma RoundTaken(c: Codecs, s: string, rounds: nat, t: string, next: string)
    requires DecodedAt(c, s, rounds) == Some(t) && !Recognised(c, t, rounds) && c.decode(t) == Some(next) && next != t
    ensures DecodedAt(c, s, rounds + 1) == Some(next)
  {}

  lemma UnwrapFinds(c: Codecs, t: string, rounds: nat)
    requires JsonLaws(c) && rounds <= 3 && Recognised(c, t, rounds)
    ensures Unwrap(c, t, rounds) == Some(Found(t, rounds, ShapeOf(c, t, rounds)))
  {
    ShapeRecognised(c, t, rounds);
  }

  /** Short of a recognised text, unwrapping is decoding once and unwrapping the rest, up to the fourth text. */
  lemma UnwrapGoesOn(c: Codecs, t: string, rounds: nat)
    requires JsonLaws(c) && !Recognised(c, t, rounds)
    ensures Unwrap(c, t, rounds) ==
              if rounds >= 4 || c.decode(t).None? || c.decode(t) == Some(t) then None
              else Unwrap(c, c.decode(t).value, rounds + 1)
  {
    ShapeRecognised(c, t, rounds);
  }

  lemma UnwrapRound(c: Codecs, s: string, rounds: nat)
    requires JsonLaws(c) && rounds <= 3 && DecodedAt(c, s, rounds + 1).Some?
    ensures DecodedAt(c, s, rounds).Some?
    ensures Unwrap(c, DecodedAt(c, s, rounds).value, rounds) == Unwrap(c, DecodedAt(c, s, rounds + 1).value, rounds + 1)
  {
    OneMoreRound(c, s, rounds);
    UnwrapGoesOn(c, DecodedAt(c, s, rounds).value, rounds);
  }

  /** Unwrapping goes through the rounds of decoding; `zero` is 0, and no literal, so that the rounds are not all unfolded at
      once. */
  lemma {:induction false} UnwrapDecodes(c: Codecs, s: string, zero: nat, rounds: nat)
    requires JsonLaws(c) && zero == 0 && rounds <= 3 && DecodedAt(c, s, rounds).Some?
    ensures Unwrap(c, s, zero) == Unwrap(c, DecodedAt(c, s, rounds).value, rounds)
  {
    if rounds > 0 {
      UnwrapRound(c, s, rounds - 1);
      UnwrapDecodes(c, s, zero, rounds - 1);
    }
  }

  /** What decoding comes upon within three rounds is what the sanitizer unwraps, */
  lemma DecodedIsUnwrapped(c: Codecs, s: string, zero: nat, rounds: nat, t: string)
    requires JsonLaws(c) && zero == 0 && rounds <= 3 && DecodedAt(c, s, rounds) == Some(t) && Recognised(c, t, rounds)
    ensures Unwrap(c, s, zero) == Some(Found(t, rounds, ShapeOf(c, t, rounds)))
  {
    UnwrapDecodes(c, s, zero, rounds);
    UnwrapFinds(c, t, rounds);
  }

  /** and it unwraps nothing else. */
  lemma {:induction false} UnwrappedIsDecoded(c: Codecs, s: string, from: nat, start: string, f: Found)
    requires JsonLaws(c) && DecodedAt(c, s, from) == Some(start) && Unwrap(c, start, from) == Some(f)
    ensures f.decodes <= 3 && DecodedAt(c, s, f.decodes) == Some(f.text) && Recognised(c, f.text, f.decodes)
    decreases 4 - from
  {
    if Recognised(c, start, from) {
      assert from <= 3;
      UnwrapFinds(c, start, from);
    } else {
      UnwrapGoesOn(c, start, from);
      RoundTaken(c, s, from, start, c.decode(start).value);
      UnwrappedIsDecoded(c, s, from + 1, c.decode(start).value, f);
    }
  }

  /** A text found after some rounds is sanitized like a string. */
  lemma FoundIsString(c: Codecs, t: string, rounds: nat, depth: nat)
    requires JsonLaws(c) && depth <= 24 && Recognised(c, t, rounds)
    ensures SanitizeShape(c, t, ShapeOf(c, t, rounds), depth) == SanitizeStringValue(c, t, depth)
    ensures ShapeOf(c, t, rounds) != Plain
  {
    ShapeRecognised(c, t, rounds);
    StringByShape(c, t, depth);
  }

  /** Then the parameter is sanitized as that string, and encoded as often again. */
  lemma ParamIsReencoded(c: Codecs, p: string, rounds: nat, t: string, depth: nat)
    requires Lawful(c) && depth <= 23 && rounds <= 3 && p != ""
    requires DecodedAt(c, p, rounds) == Some(t) && Recognised(c, t, rounds)
    ensures SanitizeParamValue(c, p, depth) == Reencode(c, SanitizeStringValue(c, t, depth + 1), rounds)
  {
    DecodedIsUnwrapped(c, p, 0, rounds, t);
    FoundIsString(c, t, rounds, depth + 1);
    SanitizedWhenFound(c, p, Found(t, rounds, ShapeOf(c, t, rounds)), depth);
  }

  lemma SanitizedWhenFound(c: Codecs, p: string, f: Found, depth: nat)
    requires depth <= 24 && p != "" && Unwrap(c, p, 0) == Some(f)
    ensures SanitizeParamValue(c, p, depth) == Reencode(c, SanitizeShape(c, f.text, f.shape, depth + 1), f.decodes)
  {}

  lemma ReencodedAgain(c: Codecs, t: string, rounds: nat, depth: nat)
    requires Lawful(c) && depth <= 24 && rounds <= 3 && Recognised(c, t, rounds)
    ensures var once := SanitizeStringValue(c, t, depth);
            && Reencode(c, once, rounds) != ""
            && Unwrap(c, Reencode(c, once, rounds), 0) == Some(Found(once, rounds, ShapeOf(c, t, rounds)))
  {
    var shape := ShapeOf(c, t, rounds);
    FoundIsString(c, t, rounds, depth);
    ShapeIdempotent(c, t, shape, rounds, depth);
    ReencodedParam(c, SanitizeShape(c, t, shape, depth), shape, rounds, depth);
  }

  lemma ParamReadBack(c: Codecs, p: string, rounds: nat, t: string, depth: nat)
    requires Lawful(c) && depth <= 23 && rounds <= 3 && p != ""
    requires DecodedAt(c, p, rounds) == Some(t) && Recognised(c, t, rounds)
    ensures var after := SanitizeParamValue(c, p, depth);
            && after != "" && DecodedAt(c, after, rounds) == Some(SanitizeStringValue(c, t, depth + 1))
            && Recognised(c, SanitizeStringValue(c, t, depth + 1), rounds)
  {
    ParamIsReencoded(c, p, rounds, t, depth);
    ReencodedAgain(c, t, rounds, depth + 1);
    var after := SanitizeParamValue(c, p, depth);
    UnwrappedIsDecoded(c, after, 0, after, Found(SanitizeStringValue(c, t, depth + 1), rounds, ShapeOf(c, t, rounds)));
  }

  lemma DecodedCarries(c: Codecs, node: Node, rounds: nat, depth: nat)
    requires Lawful(c) && depth <= 23 && Follow(c, node, Decoded(rounds)).Some?
    ensures Carries(c, node, Decoded(rounds), depth)
  {
    ParamReadBack(c, node.text, rounds, DecodedAt(c, node.text, rounds).value, depth);
  }

  // ---------------------------------------------------------------- whole paths

  lemma StepCarries(c: Codecs, node: Node, step: Step, next: Node, depth: nat)
    requires Lawful(c) && depth + (if step.Decoded? then 1 else 0) <= 24 && Leads(c, node, step, next)
    ensures Leads(c, Sanitized(c, node, depth), step, Sanitized(c, next, depth + 1))
  {
    match step
    case Index(i) => IndexCarries(c, node, i, depth);
    case Key(key) => KeyCarries(c, node, key, depth);
    case InJson => JsonCarries(c, node, depth);
    case InUrl(i) => UrlCarries(c, node, i, depth);
    case InQuery(i) => QueryCarries(c, node, i, depth);
    case Decoded(rounds) => DecodedCarries(c, node, rounds, depth);
  }

  function SanitizedTrail(c: Codecs, nodes: seq<Node>, depth: nat): seq<Node> {
    seq(|nodes|, i requires 0 <= i < |nodes| => Sanitized(c, nodes[i], depth + i))
  }

  /** What stands in place of a secret, in a value or in a parameter. */
  function Redaction(step: Step): Node {
    if step.Key? then Value(Str("[redacted]")) else Encoded("[redacted]")
  }

  ghost predicate IsRedacted(c: Codecs, node: Node, step: Step) {
    Follow(c, node, step) == Some(Redaction(step))
  }

  lemma SecretReplaced(c: Codecs, node: Node, step: Step, depth: nat)
    requires Lawful(c) && depth <= 24 && HoldsSecret(c, node, step) == true
    ensures IsRedacted(c, Sanitized(c, node, depth), step)
  {
    match step
    case Key(key) => FieldsRead(c, node.v.fields, key, depth);
    case InUrl(i) =>
      UrlReadBack(c, node.v.s, depth);
      ParamsRead(c, UrlParams(c, node.v.s), depth);
    case InQuery(i) => QueryReadBack(c, node.v.s, depth);
  }

  /** A trail of at most 24 levels, counted from the depth the sanitizer starts at, is a trail in the sanitized value: each node
      sanitized where it stands. */
  lemma TrailCarries(c: Codecs, nodes: seq<Node>, path: seq<Step>, depth: nat)
    requires Lawful(c) && depth + |path| <= 24 && Trail(c, nodes, path) == true  // the equation keeps the definition folded
    ensures Trail(c, SanitizedTrail(c, nodes, depth), path)
  {
    var after := SanitizedTrail(c, nodes, depth);
    forall i | 0 <= i < |path|
      ensures Leads(c, after[i], path[i], after[i + 1]) == true
    {
      StepCarries(c, nodes[i], path[i], nodes[i + 1], depth + i);
    }
  }

  /** At the end of any trail of at most 24 levels, counted from the depth the sanitizer starts at, what goes by a sensitive key
      is read as "[redacted]" along the same path in the sanitized value or parameter. */
  lemma SecretsAreGone(c: Codecs, nodes: seq<Node>, path: seq<Step>, step: Step, depth: nat) returns (after: seq<Node>)
    requires Lawful(c) && depth + |path| <= 24 && Trail(c, nodes, path) && HoldsSecret(c, nodes[|path|], step)
    ensures |after| == |path| + 1 && after[0] == Sanitized(c, nodes[0], depth)
    ensures Trail(c, after, path) == true && IsRedacted(c, after[|path|], step) == true
  {
    hide Lawful, Follow, Leads, Secret, Sanitized;
    after := SanitizedTrail(c, nodes, depth);
    TrailEnds(c, nodes, |path|, depth);
    assert IsRedacted(c, after[|path|], step) == true by {
      SecretReplaced(c, nodes[|path|], step, depth + |path|);
    }
    TrailCarries(c, nodes, path, depth);
  }

  lemma TrailEnds(c: Codecs, nodes: seq<Node>, last: nat, depth: nat)
    requires |nodes| == last + 1
    ensures SanitizedTrail(c, nodes, depth)[0] == Sanitized(c, nodes[0], depth)
    ensures SanitizedTrail(c, nodes, depth)[last] == Sanitized(c, nodes[last], depth + last)
  {}

  /** A row that leaves with its aliases reads under its own keys as the sanitized row does. */
  lemma LeavingFollows(c: Codecs, fields: seq<Field>, key: string, zero: nat)
    requires zero == 0 && key != "__proto__" && Lookup(fields, key).Some?
    ensures Follow(c, Value(Obj(Aliases.Leaving(c, fields))), Key(key))
            == Follow(c, Sanitized(c, Value(Obj(fields)), zero), Key(key))
  {
    Aliases.LeavingReads(c, fields, key);
    Aliases.SanitizedReads(c, fields, key);
  }

  lemma TrailFrom(c: Codecs, nodes: seq<Node>, path: seq<Step>, root: Node)
    requires path != [] && Trail(c, nodes, path) && Leads(c, root, path[0], nodes[1])
    ensures Trail(c, [root] + nodes[1..], path)
  {
    var again := [root] + nodes[1..];
    forall i | 0 <= i < |path|
      ensures Leads(c, again[i], path[i], again[i + 1]) == true
    {
      if i > 0 {
        assert again[i] == nodes[i];
      }
      assert again[i + 1] == nodes[i + 1];
    }
  }

  /** So the row that leaves holds none of the secrets the row that came held, 24 levels down. */
  lemma RowSecretsAreGone(c: Codecs, fields: seq<Field>, nodes: seq<Node>, path: seq<Step>, step: Step, zero: nat)
      returns (after: seq<Node>)
    requires Lawful(c) && zero == 0 && 1 <= |path| <= 24 && path[0].Key?
    requires Trail(c, nodes, path) && nodes[0] == Value(Obj(fields)) && HoldsSecret(c, nodes[|path|], step)
    ensures |after| == |path| + 1 && after[0] == Value(Obj(Aliases.Leaving(c, fields)))
    ensures Trail(c, after, path) == true && IsRedacted(c, after[|path|], step) == true
  {
    var clean := SecretsAreGone(c, nodes, path, step, zero);
    var root := Value(Obj(Aliases.Leaving(c, fields)));
    assert Leads(c, nodes[0], path[0], nodes[1]) && Leads(c, clean[0], path[0], clean[1]);
    LeavingFollows(c, fields, path[0].key, zero);
    assert Leads(c, root, path[0], clean[1]);
    TrailFrom(c, clean, path, root);
    after := [root] + clean[1..];
    assert after[|path|] == clean[|path|];
  }

  lemma DeepIsUntouched(c: Codecs, node: Node, depth: nat)
    requires depth >= 25
    ensures Sanitized(c, node, depth) == node
  {}

  /** No deeper: 25 levels down everything is as it was. */
  lemma BeyondIsUntouched(c: Codecs, nodes: seq<Node>, path: seq<Step>, step: Step, next: Node, depth: nat)
    requires Lawful(c) && depth + |path| == 24 && Trail(c, nodes, path)
    requires Leads(c, nodes[|path|], step, next) && !step.Decoded?
    ensures Trail(c, SanitizedTrail(c, nodes, depth), path)
    ensures Leads(c, SanitizedTrail(c, nodes, depth)[|path|], step, next)
  {
    TrailCarries(c, nodes, path, depth);
    StepCarries(c, nodes[|path|], step, next, depth + |path|);
    DeepIsUntouched(c, next, depth + |path| + 1);
  }

  // ---------------------------------------------------------------- encoded parameters

  /** The text encoded so many times over. */
  function Wrapped(c: Codecs, t: string, rounds: nat): string
    requires rounds <= 4
  {
    if rounds == 0 then t
    else if rounds == 1 then c.encode(t)
    else if rounds == 2 then c.encode(c.encode(t))
    else if rounds == 3 then c.encode(c.encode(c.encode(t)))
    else c.encode(c.encode(c.encode(c.encode(t))))
  }

  lemma WrappedIsReencoded(c: Codecs, t: string, rounds: nat)
    requires rounds <= 4
    ensures Reencode(c, t, rounds) == Wrapped(c, t, rounds)
  {}

  lemma WrappedDecodes(c: Codecs, t: string, rounds: nat)
    requires Lawful(c) && rounds <= 3 && Recognised(c, t, rounds)
    ensures Wrapped(c, t, rounds) != "" && DecodedAt(c, Wrapped(c, t, rounds), rounds) == Some(t)
  {
    var p := Wrapped(c, t, rounds);
    WrappedIsReencoded(c, t, rounds);
    ShapeRecognised(c, t, rounds);
    ReencodedParam(c, t, ShapeOf(c, t, rounds), rounds, 0);
    UnwrappedIsDecoded(c, p, 0, p, Found(t, rounds, ShapeOf(c, t, rounds)));
  }

  /** A parameter encoded up to three times around a URL, a JSON container or, once encoded at all, a query leaves encoded as
      often, and what goes by a sensitive key inside is read as "[redacted]" along the same path. */
  lemma EncodedSecretsAreGone(c: Codecs, t: string, rounds: nat, nodes: seq<Node>, path: seq<Step>, step: Step, depth: nat)
      returns (text: string, after: seq<Node>)
    requires Lawful(c) && rounds <= 3 && Recognised(c, t, rounds)
    requires depth + 1 + |path| <= 24 && Trail(c, nodes, path) && nodes[0] == Value(Str(t)) && HoldsSecret(c, nodes[|path|], step)
    ensures SanitizeParamValue(c, Wrapped(c, t, rounds), depth) == Wrapped(c, text, rounds)
    ensures |after| == |path| + 1 && after[0] == Value(Str(text))
    ensures Trail(c, after, path) == true && IsRedacted(c, after[|path|], step) == true
  {
    text := SanitizeStringValue(c, t, depth + 1);
    after := SecretsAreGone(c, nodes, path, step, depth + 1);
    StringNode(c, t, depth + 1);
    EncodedIsReencoded(c, t, rounds, depth);
  }

  lemma StringNode(c: Codecs, t: string, depth: nat)
    requires depth <= 24
    ensures Sanitized(c, Value(Str(t)), depth) == Value(Str(SanitizeStringValue(c, t, depth)))
  {}

  lemma EncodedIsReencoded(c: Codecs, t: string, rounds: nat, depth: nat)
    requires Lawful(c) && rounds <= 3 && Recognised(c, t, rounds) && depth <= 23
    ensures SanitizeParamValue(c, Wrapped(c, t, rounds), depth) == Wrapped(c, SanitizeStringValue(c, t, depth + 1), rounds)
  {
    WrappedDecodes(c, t, rounds);
    ParamIsReencoded(c, Wrapped(c, t, rounds), rounds, t, depth);
    WrappedIsReencoded(c, SanitizeStringValue(c, t, depth + 1), rounds);
  }

  lemma EncodedIsPassed(c: Codecs, t: string, rounds: nat)
    requires PercentLaws(c)
    ensures Unwrap(c, c.encode(t), rounds) == if rounds >= 4 || c.encode(t) == t then None else Unwrap(c, t, rounds + 1)
  {
    assert AllEscaped(c.encode(t)) && c.decode(c.encode(t)) == Some(t);
    EscapedIsPlain(c, c.encode(t), rounds);
  }

  /** One encoded four times is left alone, whatever is inside. */
  lemma FourTimesUntouched(c: Codecs, t: string, zero: nat, depth: nat)
    requires Lawful(c) && zero == 0
    ensures SanitizeParamValue(c, Wrapped(c, t, 4), depth) == Wrapped(c, t, 4)
  {
    EncodedIsPassed(c, Wrapped(c, t, 3), zero);
    EncodedIsPassed(c, Wrapped(c, t, 2), zero + 1);
    EncodedIsPassed(c, Wrapped(c, t, 1), zero + 2);
    EncodedIsPassed(c, t, zero + 3);
    NothingUnwraps(c, t, zero + 4);
  }

  lemma NothingUnwraps(c: Codecs, t: string, rounds: nat)
    requires rounds >= 4
    ensures Unwrap(c, t, rounds).None?
  {}
}
