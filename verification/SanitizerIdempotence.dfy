/** Sanitizing twice: the exact condition under which the second pass changes nothing. */
module SanitizerIdempotence {
  import opened Wrappers
  import opened Text
  import opened Codec
  import Order
  import opened Sanitizer

  // ---------------------------------------------------------------- the condition

  /** Anywhere the sanitizer reaches, no relative URL with a sensitive key has a normalised path that starts with two slashes
      and then names a host. */
  predicate StableValue(c: Codecs, v: Json, depth: nat)
    decreases Room(depth), 6, 0
  {
    if depth > MAX_DEPTH then true
    else match v
      case Arr(items) => StableItems(c, items, depth)
      case Obj(fields) => StableFields(c, fields, depth)
      case Str(s) => StableShape(c, s, ShapeOf(c, s, 1), depth)
      case _ => true
  }

  predicate StableItems(c: Codecs, items: seq<Json>, depth: nat)
    requires depth <= MAX_DEPTH
    decreases Room(depth), 5, |items|
  {
    items == [] || (StableValue(c, items[0], depth + 1) && StableItems(c, items[1..], depth))
  }

  predicate StableFields(c: Codecs, fields: seq<Field>, depth: nat)
    requires depth <= MAX_DEPTH
    decreases Room(depth), 5, |fields|
  {
    fields == [] ||
    ((fields[0].key == PROTO || c.sensitive(fields[0].key) || StableValue(c, fields[0].value, depth + 1))
     && StableFields(c, fields[1..], depth))
  }

  predicate StableShape(c: Codecs, s: string, shape: Shape, depth: nat)
    requires depth <= MAX_DEPTH + 1
    decreases Room(depth), 4, 0
  {
    match shape
    case AsUrl => StableUrl(c, s, depth)
    case AsJson => (match c.parseJson(s)
      case None => true
      case Some(parsed) => StableValue(c, parsed, depth + 1))
    case AsQuery => depth > MAX_DEPTH || StablePieces(c, Split(s, '&'), depth)
    case Plain => true
  }

  predicate StableUrl(c: Codecs, s: string, depth: nat)
    decreases Room(depth), 3, 0
  {
    if depth > MAX_DEPTH then true
    else match ParseUrl(c, s)
      case None => true
      case Some(u) =>
        if IsAbsoluteUrl(s) || !StartsAs(u.path, "//") then StableParams(c, u.params, depth)
        else !c.authority(u.path) || (StableParams(c, u.params, depth) && !HasSensitive(c, u.params))
  }

  predicate StableParams(c: Codecs, ps: seq<Param>, depth: nat)
    requires depth <= MAX_DEPTH
    decreases Room(depth), 2, |ps|
  {
    ps == [] ||
    ((c.sensitive(ps[0].key) || StableParam(c, ps[0].value, depth + 1)) && StableParams(c, ps[1..], depth))
  }

  predicate StablePieces(c: Codecs, pieces: seq<string>, depth: nat)
    requires depth <= MAX_DEPTH
    decreases Room(depth), 2, |pieces|
  {
    pieces == [] ||
    ((c.sensitive(PieceKey(c, pieces[0])) || StableParam(c, PieceValue(c, pieces[0]), depth + 1))
     && StablePieces(c, pieces[1..], depth))
  }

  predicate StableParam(c: Codecs, s: string, depth: nat)
    decreases Room(depth), 5, 0
  {
    if depth > MAX_DEPTH || s == "" then true
    else match Unwrap(c, s, 0)
      case None => true
      case Some(f) => StableShape(c, f.text, f.shape, depth + 1)
  }

  // ---------------------------------------------------------------- shapes of text

  lemma {:induction false} SchemeHasColon(s: string)
    requires SchemeThenSlashes(s)
    ensures ':' in s
  {
    if StartsAs(s, "://") {
      assert s[..3][0] == s[0];
    } else {
      SchemeHasColon(s[1..]);
    }
  }

  lemma {:induction false} TrimRightHead(s: string)
    requires s != "" && !IsSpace(s[0])
    ensures TrimRight(s) != "" && TrimRight(s)[0] == s[0]
  {
    if IsSpace(s[|s| - 1]) {
      TrimRightHead(s[..|s| - 1]);
    }
  }

  lemma TrimHead(s: string)
    requires s != "" && !IsSpace(s[0])
    ensures Trim(s) != "" && Trim(s)[0] == s[0]
  {
    TrimRightHead(s);
  }

  lemma {:induction false} TrimLeftChars(s: string)
    ensures forall c :: c in TrimLeft(s) ==> c in s
  {
    if s != "" {
      TrimLeftChars(s[1..]);
    }
  }

  lemma {:induction false} TrimRightChars(s: string)
    ensures forall c :: c in TrimRight(s) ==> c in s
  {
    if s != "" {
      TrimRightChars(s[..|s| - 1]);
    }
  }

  lemma {:induction false} SplitChars(s: string, sep: char)
    ensures forall p, c :: p in Split(s, sep) && c in p ==> c in s && c != sep
  {
    if s != "" {
      SplitChars(s[1..], sep);
      var rest := Split(s[1..], sep);
      forall p, c | p in Split(s, sep) && c in p
        ensures c in s && c != sep
      {
        if s[0] != sep && p == [s[0]] + rest[0] && c != s[0] {
          assert c in rest[0] && rest[0] in rest;
        }
      }
    }
  }

  lemma NeitherUrlNorJson(c: Codecs, s: string)
    requires ':' !in s && '/' !in s && '{' !in s && '[' !in s
    ensures !LooksLikeUrl(s) && !LooksLikeJson(c, Trim(s))
  {
    if IsAbsoluteUrl(s) {
      SchemeHasColon(s[1..]);
    }
    TrimLeftChars(s);
    TrimRightChars(TrimLeft(s));
    assert Trim(s) != "" ==> Trim(s)[0] in s;
  }

  lemma EscapedChar(x: char)
    requires IsEscaped(x)
    ensures x != ':' && x != '/' && x != '{' && x != '[' && x != '=' && x != '&' && x != '+' && !IsSpace(x)
  {}

  lemma EscapedChars(s: string)
    requires AllEscaped(s)
    ensures ':' !in s && '/' !in s && '{' !in s && '[' !in s && '=' !in s && '&' !in s && '+' !in s && NoSpace(s)
  {
    forall x | x in s
      ensures x != ':' && x != '/' && x != '{' && x != '[' && x != '=' && x != '&' && x != '+' && !IsSpace(x)
    {
      EscapedChar(x);
    }
  }

  /** Percent-encoded text is never taken for a URL, a JSON document or a query string. */
  lemma EscapedIsPlain(c: Codecs, s: string, decodes: nat)
    requires AllEscaped(s)
    ensures ShapeOf(c, s, decodes) == Plain
  {
    EscapedChars(s);
    NeitherUrlNorJson(c, s);
    SplitChars(s, '&');
    var p := Split(s, '&')[0];
    assert p in Split(s, '&') && '=' !in p;
  }

  lemma UrlIsNotJson(c: Codecs, s: string)
    requires LooksLikeUrl(s)
    ensures !LooksLikeJson(c, Trim(s))
  {
    TrimHead(s);
  }

  /** The two orders in which the source tests shapes agree. */
  lemma StringByShape(c: Codecs, s: string, depth: nat)
    requires depth <= MAX_DEPTH
    ensures SanitizeStringValue(c, s, depth) == SanitizeShape(c, s, ShapeOf(c, s, 1), depth)
  {
    if LooksLikeUrl(s) {
      UrlIsNotJson(c, s);
    }
    if s == "" {
      EscapedIsPlain(c, s, 1);
    }
  }

  // ---------------------------------------------------------------- repeated encoding

  lemma {:induction false} ReencodeInjective(c: Codecs, s: string, t: string, times: nat)
    requires PercentLaws(c)
    ensures Reencode(c, s, times) == Reencode(c, t, times) <==> s == t
  {
    if times > 0 {
      ReencodeInjective(c, s, t, times - 1);
      assert c.decode(c.encode(Reencode(c, s, times - 1))) == Some(Reencode(c, s, times - 1));
      assert c.decode(c.encode(Reencode(c, t, times - 1))) == Some(Reencode(c, t, times - 1));
    }
  }

  lemma {:induction false} ReencodeMoves(c: Codecs, s: string, times: nat)
    requires PercentLaws(c) && !AllEscaped(s)
    ensures Reencode(c, s, times + 1) != Reencode(c, s, times)
  {
    if times > 0 {
      ReencodeMoves(c, s, times - 1);
      assert c.decode(c.encode(Reencode(c, s, times))) == Some(Reencode(c, s, times));
      assert c.decode(c.encode(Reencode(c, s, times - 1))) == Some(Reencode(c, s, times - 1));
    } else {
      assert AllEscaped(c.encode(s));
    }
  }

  lemma {:induction false} ReencodeNonEmpty(c: Codecs, s: string, times: nat)
    requires PercentLaws(c) && s != ""
    ensures Reencode(c, s, times) != ""
  {
    if times > 0 {
      ReencodeNonEmpty(c, s, times - 1);
    }
  }

  /** Decoding text that was encoded as often as it had been decoded finds the same shape after the same number of rounds. */
  lemma {:induction false} UnwrapReencoded(c: Codecs, s: string, shape: Shape, times: nat, done: nat)
    requires PercentLaws(c)
    requires done <= times < MAX_DECODE_ITERATIONS
    requires shape != Plain && ShapeOf(c, s, times) == shape
    ensures Unwrap(c, Reencode(c, s, times - done), done) == Some(Found(s, times, shape))
    decreases times - done
  {
    if done < times {
      var next := Reencode(c, s, times - done - 1);
      assert Reencode(c, s, times - done) == c.encode(next);
      assert !AllEscaped(s) by {
        if AllEscaped(s) { EscapedIsPlain(c, s, times); }
      }
      ReencodeMoves(c, s, times - done - 1);
      UnwrapEncoded(c, next, done);
      UnwrapReencoded(c, s, shape, times, done + 1);
    }
  }

  lemma UnwrapEncoded(c: Codecs, next: string, done: nat)
    requires PercentLaws(c) && c.encode(next) != next && done < MAX_DECODE_ITERATIONS
    ensures Unwrap(c, c.encode(next), done) == Unwrap(c, next, done + 1)
  {
    assert AllEscaped(c.encode(next)) && c.decode(c.encode(next)) == Some(next);
    EscapedIsPlain(c, c.encode(next), done);
  }

  lemma {:induction false} UnwrapBounds(c: Codecs, s: string, done: nat)
    ensures Unwrap(c, s, done).Some? ==>
              var f := Unwrap(c, s, done).value;
              done <= f.decodes < MAX_DECODE_ITERATIONS && f.shape != Plain && ShapeOf(c, f.text, f.decodes) == f.shape
    decreases MAX_DECODE_ITERATIONS - done
  {
    if done < MAX_DECODE_ITERATIONS && ShapeOf(c, s, done) == Plain && c.decode(s).Some? {
      UnwrapBounds(c, c.decode(s).value, done + 1);
    }
  }

  // ---------------------------------------------------------------- properness survives

  lemma {:induction false} SanitizedProper(c: Codecs, v: Json, depth: nat)
    requires JsonLaws(c) && Proper(c, v)
    ensures Proper(c, SanitizeValue(c, v, depth))
    decreases v, 0
  {
    if depth <= MAX_DEPTH {
      match v
      case Arr(items) => SanitizedItemsProper(c, items, depth);
      case Obj(fields) => SanitizedFieldsProper(c, fields, depth);
      case _ =>
    }
  }

  lemma {:induction false} SanitizedItemsProper(c: Codecs, items: seq<Json>, depth: nat)
    requires JsonLaws(c) && depth <= MAX_DEPTH
    requires forall x :: x in items ==> Proper(c, x)
    ensures forall x :: x in SanitizeItems(c, items, depth) ==> Proper(c, x)
    decreases items, 1
  {
    if items != [] {
      SanitizedProper(c, items[0], depth + 1);
      SanitizedItemsProper(c, items[1..], depth);
    }
  }

  lemma {:induction false} SanitizedFieldsProper(c: Codecs, fields: seq<Field>, depth: nat)
    requires JsonLaws(c) && depth <= MAX_DEPTH
    requires forall f :: f in fields ==> Proper(c, f.value)
    ensures forall f :: f in SanitizeFields(c, fields, depth) ==> Proper(c, f.value)
    ensures Keys(SanitizeFields(c, fields, depth)) == Without(Keys(fields), PROTO)
    decreases fields, 1
  {
    if fields != [] {
      SanitizedProper(c, fields[0].value, depth + 1);
      SanitizedFieldsProper(c, fields[1..], depth);
      var rest := SanitizeFields(c, fields[1..], depth);
      var all := SanitizeFields(c, fields, depth);
      assert Keys(fields)[0] == fields[0].key && Keys(fields)[1..] == Keys(fields[1..]);
      if fields[0].key != PROTO {
        assert all[1..] == rest;
      } else {
        assert all == rest;
      }
    }
  }

  // ---------------------------------------------------------------- the theorem, function by function

  /** Sanitizing a value twice gives the same as once exactly when the value is stable. */
  lemma {:induction false} ValueIdempotent(c: Codecs, v: Json, depth: nat)
    requires Lawful(c)
    ensures SanitizeValue(c, SanitizeValue(c, v, depth), depth) == SanitizeValue(c, v, depth) <==> StableValue(c, v, depth)
    decreases Room(depth), 6, 0
  {
    if depth <= MAX_DEPTH {
      match v
      case Arr(items) => ItemsIdempotent(c, items, depth);
      case Obj(fields) => FieldsIdempotent(c, fields, depth);
      case Str(s) =>
        var shape := ShapeOf(c, s, 1);
        StringByShape(c, s, depth);
        ShapeIdempotent(c, s, shape, 1, depth);
        StringByShape(c, SanitizeShape(c, s, shape, depth), depth);
      case _ =>
    }
  }

  lemma {:induction false} ItemsIdempotent(c: Codecs, items: seq<Json>, depth: nat)
    requires Lawful(c) && depth <= MAX_DEPTH
    ensures var once := SanitizeItems(c, items, depth);
            SanitizeItems(c, once, depth) == once <==> StableItems(c, items, depth)
    decreases Room(depth), 5, |items|
  {
    if items != [] {
      ValueIdempotent(c, items[0], depth + 1);
      ItemsIdempotent(c, items[1..], depth);
      var head := SanitizeValue(c, items[0], depth + 1);
      var rest := SanitizeItems(c, items[1..], depth);
      assert ([head] + rest)[1..] == rest;
      Order.ConsEqual(SanitizeValue(c, head, depth + 1), SanitizeItems(c, rest, depth), head, rest);
    }
  }

  lemma {:induction false} FieldsIdempotent(c: Codecs, fields: seq<Field>, depth: nat)
    requires Lawful(c) && depth <= MAX_DEPTH
    ensures var once := SanitizeFields(c, fields, depth);
            SanitizeFields(c, once, depth) == once <==> StableFields(c, fields, depth)
    decreases Room(depth), 5, |fields|
  {
    if fields != [] {
      var key := fields[0].key;
      ValueIdempotent(c, fields[0].value, depth + 1);
      FieldsIdempotent(c, fields[1..], depth);
      var rest := SanitizeFields(c, fields[1..], depth);
      if key == PROTO {
        assert SanitizeFields(c, fields, depth) == rest;
      } else {
        var value := if c.sensitive(key) then Str(REDACTED) else SanitizeValue(c, fields[0].value, depth + 1);
        var again := if c.sensitive(key) then Str(REDACTED) else SanitizeValue(c, value, depth + 1);
        assert ([Field(key, value)] + rest)[1..] == rest;
        Order.ConsEqual(Field(key, again), SanitizeFields(c, rest, depth), Field(key, value), rest);
      }
    }
  }

  /** A sanitized text keeps its shape, and is a fixed point exactly when it is stable. */
  lemma {:induction false} ShapeIdempotent(c: Codecs, s: string, shape: Shape, decodes: nat, depth: nat)
    requires Lawful(c) && depth <= MAX_DEPTH + 1
    requires ShapeOf(c, s, decodes) == shape
    ensures var once := SanitizeShape(c, s, shape, depth);
            ShapeOf(c, once, decodes) == shape &&
            (SanitizeShape(c, once, shape, depth) == once <==> StableShape(c, s, shape, depth))
    decreases Room(depth), 4, 0
  {
    match shape
    case AsUrl => UrlIdempotent(c, s, depth);
    case AsJson => JsonIdempotent(c, s, depth);
    case AsQuery => QueryIdempotent(c, s, depth);
    case Plain =>
  }

  lemma {:induction false} JsonIdempotent(c: Codecs, s: string, depth: nat)
    requires Lawful(c) && depth <= MAX_DEPTH + 1
    requires !LooksLikeUrl(s) && LooksLikeJson(c, Trim(s))
    ensures var once := SanitizeJsonString(c, s, depth);
            !LooksLikeUrl(once) && LooksLikeJson(c, Trim(once)) &&
            (SanitizeJsonString(c, once, depth) == once <==> StableShape(c, s, AsJson, depth))
    decreases Room(depth), 3, 0
  {
    match c.parseJson(s)
    case None =>
    case Some(parsed) =>
      var once := SanitizeValue(c, parsed, depth + 1);
      var twice := SanitizeValue(c, once, depth + 1);
      assert Container(parsed) && Proper(c, parsed);
      SanitizedProper(c, parsed, depth + 1);
      SanitizedProper(c, once, depth + 1);
      PrintedContainer(c, once);
      PrintedContainer(c, twice);
      ValueIdempotent(c, parsed, depth + 1);
  }

  /** A container prints as a text that is taken for JSON and nothing else, and reads back. */
  lemma PrintedContainer(c: Codecs, v: Json)
    requires JsonLaws(c) && Container(v) && Proper(c, v)
    ensures var text := c.stringify(v);
            c.parseJson(text) == Some(v) && LooksLikeJson(c, Trim(text)) && !LooksLikeUrl(text)
  {
    assert Bracketed(c.stringify(v));
    TrimIdentity(c.stringify(v));
  }

  lemma {:induction false} ParamsIdempotent(c: Codecs, ps: seq<Param>, depth: nat)
    requires Lawful(c) && depth <= MAX_DEPTH
    ensures var once := SanitizeParams(c, ps, depth);
            (SanitizeParams(c, once, depth) == once <==> StableParams(c, ps, depth)) &&
            (once == [] <==> ps == []) && (HasSensitive(c, once) <==> HasSensitive(c, ps))
    decreases Room(depth), 2, |ps|
  {
    if ps != [] {
      var key := ps[0].key;
      ParamIdempotent(c, ps[0].value, depth + 1);
      ParamsIdempotent(c, ps[1..], depth);
      var rest := SanitizeParams(c, ps[1..], depth);
      var value := if c.sensitive(key) then REDACTED else SanitizeParamValue(c, ps[0].value, depth + 1);
      var again := if c.sensitive(key) then REDACTED else SanitizeParamValue(c, value, depth + 1);
      var once := [Param(key, value)] + rest;
      assert once[1..] == rest;
      Order.ConsEqual(Param(key, again), SanitizeParams(c, rest, depth), Param(key, value), rest);
      SensitiveCons(c, once);
      SensitiveCons(c, ps);
    }
  }

  lemma SensitiveCons(c: Codecs, ps: seq<Param>)
    requires ps != []
    ensures HasSensitive(c, ps) <==> c.sensitive(ps[0].key) || HasSensitive(c, ps[1..])
  {
    assert ps[0] in ps;
    assert forall p :: p in ps ==> p == ps[0] || p in ps[1..];
  }

  lemma {:induction false} UrlIdempotent(c: Codecs, s: string, depth: nat)
    requires Lawful(c) && LooksLikeUrl(s)
    ensures var once := SanitizeUrlLike(c, s, depth);
            LooksLikeUrl(once) && (SanitizeUrlLike(c, once, depth) == once <==> StableUrl(c, s, depth))
    decreases Room(depth), 3, 0
  {
    if depth <= MAX_DEPTH && ParseUrl(c, s).Some? {
      var u := ParseUrl(c, s).value;
      var ps := SanitizeParams(c, u.params, depth);
      ParamsIdempotent(c, u.params, depth);
      if HasSensitive(c, u.params) || ps != u.params {
        ParamsIdempotent(c, ps, depth);
        if IsAbsoluteUrl(s) {
          AbsoluteIdempotent(c, s, u, ps, depth);
        } else {
          RelativeIdempotent(c, s, u, ps, depth);
        }
      }
    }
  }

  lemma AbsoluteIdempotent(c: Codecs, s: string, u: Url, ps: seq<Param>, depth: nat)
    requires UrlLaws(c) && depth <= MAX_DEPTH
    requires IsAbsoluteUrl(s) && c.parseAbsolute(s) == Some(u) && ps != [] && SanitizeParams(c, ps, depth) != []
    ensures var once := c.href(u.(params := ps));
            IsAbsoluteUrl(once) &&
            (SanitizeUrlLike(c, once, depth) == once <==> SanitizeParams(c, ps, depth) == ps)
  {
    var again := SanitizeParams(c, ps, depth);
    assert AbsoluteLaw(c, s, ps) && AbsoluteLaw(c, s, again);
  }

  lemma RelativeIdempotent(c: Codecs, s: string, u: Url, ps: seq<Param>, depth: nat)
    requires UrlLaws(c) && depth <= MAX_DEPTH
    requires IsRelativeUrlWithQuery(s) && c.parseRelative(s) == Some(u) && ps != [] && SanitizeParams(c, ps, depth) != []
    ensures var once := RelativeText(c, u.(params := ps));
            IsRelativeUrlWithQuery(once) && !IsAbsoluteUrl(once) &&
            (SanitizeUrlLike(c, once, depth) == once <==>
              if StartsAs(u.path, "//") then !c.authority(u.path) || (SanitizeParams(c, ps, depth) == ps && !HasSensitive(c, ps))
              else SanitizeParams(c, ps, depth) == ps)
  {
    var again := SanitizeParams(c, ps, depth);
    var once := RelativeText(c, u.(params := ps));
    assert RelativeLaw(c, s, ps) && RelativeLaw(c, s, again);
    if c.parseRelative(once).Some? && !(again == ps && !HasSensitive(c, ps)) {
      var u2 := c.parseRelative(once).value;
      assert RelativeLaw(c, once, again);
      if StartsAs(u.path, "//") {
        PathEnds(u.path, c.search(ps), u.hash, u2.path, c.search(again), u2.hash);
      }
    }
  }

  /** A path without a question mark is what stands before the first one. */
  lemma PathEnds(p: string, q: string, h: string, p2: string, q2: string, h2: string)
    requires '?' !in p && '?' !in p2 && |p2| < |p|
    requires q2 != "" && q2[0] == '?'
    ensures p + q + h != p2 + q2 + h2
  {
    assert (p2 + q2 + h2)[|p2|] == '?';
    assert (p + q + h)[|p2|] == p[|p2|];
  }

  lemma {:induction false} ParamIdempotent(c: Codecs, s: string, depth: nat)
    requires Lawful(c)
    ensures var once := SanitizeParamValue(c, s, depth);
            SanitizeParamValue(c, once, depth) == once <==> StableParam(c, s, depth)
    decreases Room(depth), 5, 0
  {
    if depth <= MAX_DEPTH && s != "" && Unwrap(c, s, 0).Some? {
      var f := Unwrap(c, s, 0).value;
      UnwrapBounds(c, s, 0);
      ShapeIdempotent(c, f.text, f.shape, f.decodes, depth + 1);
      var once := SanitizeShape(c, f.text, f.shape, depth + 1);
      ReencodedParam(c, once, f.shape, f.decodes, depth);
      ReencodeInjective(c, SanitizeShape(c, once, f.shape, depth + 1), once, f.decodes);
    }
  }

  /** A parameter made by encoding a text is unwrapped to that text, sanitized and encoded as often again. */
  lemma ReencodedParam(c: Codecs, text: string, shape: Shape, decodes: nat, depth: nat)
    requires PercentLaws(c) && depth <= MAX_DEPTH && decodes < MAX_DECODE_ITERATIONS
    requires shape != Plain && ShapeOf(c, text, decodes) == shape
    ensures var wrapped := Reencode(c, text, decodes);
            && wrapped != "" && Unwrap(c, wrapped, 0) == Some(Found(text, decodes, shape))
            && SanitizeParamValue(c, wrapped, depth) == Reencode(c, SanitizeShape(c, text, shape, depth + 1), decodes)
  {
    if text == "" { EscapedIsPlain(c, text, decodes); }
    ReencodeNonEmpty(c, text, decodes);
    UnwrapReencoded(c, text, shape, decodes, 0);
  }

  lemma {:induction false} QueryIdempotent(c: Codecs, s: string, depth: nat)
    requires Lawful(c) && LooksLikeQueryString(s) && !LooksLikeUrl(s) && !LooksLikeJson(c, Trim(s))
    ensures var once := SanitizeQueryString(c, s, depth);
            !LooksLikeUrl(once) && !LooksLikeJson(c, Trim(once)) && LooksLikeQueryString(once) &&
            (SanitizeQueryString(c, once, depth) == once <==>
                StableShape(c, s, AsQuery, if depth <= MAX_DEPTH then depth else MAX_DEPTH + 1))
    decreases Room(depth), 3, 0
  {
    if depth <= MAX_DEPTH {
      var pieces := Split(s, '&');
      var once := SanitizePieces(c, pieces, depth);
      PiecesIdempotent(c, pieces, depth);
      JoinedIsQueryOnly(c, once);
      QueryPiecesAgain(c, once);
      PiecesIdempotent(c, once, depth);
      QueryByPieces(c, once, depth);
    }
  }

  lemma QueryPiecesAgain(c: Codecs, pieces: seq<string>)
    requires forall p :: p in pieces ==> QueryPiece(p)
    ensures forall p :: p in pieces ==> NoSpace(p) && IndexOf(p, '=') >= 1
  {}

  /** A joined query is a fixed point exactly when its pieces are. */
  lemma QueryByPieces(c: Codecs, pieces: seq<string>, depth: nat)
    requires depth <= MAX_DEPTH && pieces != []
    requires forall p :: p in pieces ==> QueryPiece(p)
    requires forall p :: p in SanitizePieces(c, pieces, depth) ==> QueryPiece(p)
    ensures SanitizeQueryString(c, Join(pieces, '&'), depth) == Join(pieces, '&') <==> SanitizePieces(c, pieces, depth) == pieces
  {
    SplitJoin(pieces, '&');
    SplitJoin(SanitizePieces(c, pieces, depth), '&');
  }

  predicate QueryPiece(p: string) {
    '&' !in p && NoSpace(p) && IndexOf(p, '=') >= 1 && ':' !in p && '/' !in p && '{' !in p && '[' !in p
  }

  lemma JoinedIsQueryOnly(c: Codecs, pieces: seq<string>)
    requires |pieces| >= 2 && forall p :: p in pieces ==> QueryPiece(p)
    ensures var s := Join(pieces, '&');
            LooksLikeQueryString(s) && !LooksLikeUrl(s) && !LooksLikeJson(c, Trim(s))
  {
    SplitJoin(pieces, '&');
    JoinChars(pieces, '&');
    NeitherUrlNorJson(c, Join(pieces, '&'));
  }

  lemma EncodedPiece(c: Codecs, key: string, value: string)
    requires PercentLaws(c) && key != ""
    ensures var p := c.encode(key) + "=" + c.encode(value);
            QueryPiece(p) && PieceKey(c, p) == key && PieceValue(c, p) == value
  {
    var k, v := c.encode(key), c.encode(value);
    var p := k + ['='] + v;
    assert p == k + "=" + v;
    EscapedChars(k);
    EscapedChars(v);
    IndexOfPrefix(k, '=', v);
    assert p[..|k|] == k && p[|k| + 1..] == v;
    ReplacePlusIdentity(k);
    ReplacePlusIdentity(v);
    assert c.decode(k) == Some(key) && c.decode(v) == Some(value);
  }

  lemma PieceKeyNonEmpty(c: Codecs, p: string)
    requires PercentLaws(c) && IndexOf(p, '=') >= 1
    ensures PieceKey(c, p) != ""
  {}

  lemma {:induction false} PiecesIdempotent(c: Codecs, pieces: seq<string>, depth: nat)
    requires Lawful(c) && depth <= MAX_DEPTH
    requires forall p :: p in pieces ==> NoSpace(p) && IndexOf(p, '=') >= 1
    ensures var once := SanitizePieces(c, pieces, depth);
            (forall p :: p in once ==> QueryPiece(p)) &&
            (SanitizePieces(c, once, depth) == once <==> StablePieces(c, pieces, depth))
    decreases Room(depth), 2, |pieces|
  {
    if pieces != [] {
      var key := PieceKey(c, pieces[0]);
      PieceKeyNonEmpty(c, pieces[0]);
      ParamIdempotent(c, PieceValue(c, pieces[0]), depth + 1);
      PiecesIdempotent(c, pieces[1..], depth);
      var rest := SanitizePieces(c, pieces[1..], depth);
      var value := if c.sensitive(key) then REDACTED else SanitizeParamValue(c, PieceValue(c, pieces[0]), depth + 1);
      var again := if c.sensitive(key) then REDACTED else SanitizeParamValue(c, value, depth + 1);
      var p, p2 := c.encode(key) + "=" + c.encode(value), c.encode(key) + "=" + c.encode(again);
      EncodedPiece(c, key, value);
      EncodedPiece(c, key, again);
      assert ([p] + rest)[1..] == rest;
      Order.ConsEqual(p2, SanitizePieces(c, rest, depth), p, rest);
    }
  }
}
