/** What the sanitizer leaves of a value: the same keys, lengths, nesting and encodings, with exactly the values under
    sensitive keys replaced. */
module SanitizerRedaction {
  import opened Wrappers
  import opened Text
  import opened Codec
  import Order
  import opened Sanitizer
  import opened SanitizerIdempotence

  /** `after` mirrors `before`; every sensitive key within the depth bound holds the placeholder and nothing else changed. */
  predicate Redacted(c: Codecs, before: Json, after: Json, depth: nat)
    decreases Room(depth), 6, 0
  {
    if depth > MAX_DEPTH then after == before
    else match before
      case Arr(items) => after.Arr? && RedactedItems(c, items, after.items, depth)
      case Obj(fields) => after.Obj? && RedactedFields(c, fields, after.fields, depth)
      case Str(s) => after.Str? && RedactedText(c, s, after.s, ShapeOf(c, s, 1), depth)
      case _ => after == before
  }

  predicate RedactedItems(c: Codecs, before: seq<Json>, after: seq<Json>, depth: nat)
    requires depth <= MAX_DEPTH
    decreases Room(depth), 5, |before|
  {
    |after| == |before| &&
    (before == [] || (Redacted(c, before[0], after[0], depth + 1) && RedactedItems(c, before[1..], after[1..], depth)))
  }

  /** Same keys in the same order, save that a `__proto__` key is lost. */
  predicate RedactedFields(c: Codecs, before: seq<Field>, after: seq<Field>, depth: nat)
    requires depth <= MAX_DEPTH
    decreases Room(depth), 5, |before|
  {
    if before == [] then after == []
    else if before[0].key == PROTO then RedactedFields(c, before[1..], after, depth)
    else
      && after != []
      && after[0].key == before[0].key
      && (if c.sensitive(before[0].key) then after[0].value == Str(REDACTED)
          else Redacted(c, before[0].value, after[0].value, depth + 1))
      && RedactedFields(c, before[1..], after[1..], depth)
  }

  /** The text read back through its own codec mirrors the original read the same way. */
  predicate RedactedText(c: Codecs, before: string, after: string, shape: Shape, depth: nat)
    requires depth <= MAX_DEPTH + 1
    decreases Room(depth), 4, 0
  {
    match shape
    case AsUrl =>
      if depth > MAX_DEPTH || ParseUrl(c, before).None? then after == before
      else
        var u := ParseUrl(c, before).value;
        && IsAbsoluteUrl(after) == IsAbsoluteUrl(before)
        && (match ParseUrl(c, after)
            case None => StartsAs(u.path, "//") && !c.authority(u.path) && !IsAbsoluteUrl(before)
            case Some(u2) =>
              && u2.hash == u.hash
              && (if IsAbsoluteUrl(before) || after == before then u2.origin == u.origin
                  else StartsAs(u.path, "//") || u2.origin == PLACEHOLDER)
              && (u2.path == u.path || (StartsAs(u.path, "//") && !IsAbsoluteUrl(before)))
              && RedactedParams(c, u.params, u2.params, depth))
    case AsJson =>
      (match c.parseJson(before)
       case None => after == before
       case Some(v) => c.parseJson(after).Some? && Redacted(c, v, c.parseJson(after).value, depth + 1))
    case AsQuery =>
      if depth > MAX_DEPTH then after == before
      else RedactedPieces(c, Split(before, '&'), Split(after, '&'), depth)
    case Plain => after == before
  }

  predicate RedactedParams(c: Codecs, before: seq<Param>, after: seq<Param>, depth: nat)
    requires depth <= MAX_DEPTH
    decreases Room(depth), 2, |before|
  {
    |after| == |before| &&
    (before == [] ||
     (&& after[0].key == before[0].key
      && (if c.sensitive(before[0].key) then after[0].value == REDACTED
          else RedactedParam(c, before[0].value, after[0].value, depth + 1))
      && RedactedParams(c, before[1..], after[1..], depth)))
  }

  predicate RedactedPieces(c: Codecs, before: seq<string>, after: seq<string>, depth: nat)
    requires depth <= MAX_DEPTH
    decreases Room(depth), 2, |before|
  {
    |after| == |before| &&
    (before == [] ||
     (&& PieceKey(c, after[0]) == PieceKey(c, before[0])
      && (if c.sensitive(PieceKey(c, before[0])) then PieceValue(c, after[0]) == REDACTED
          else RedactedParam(c, PieceValue(c, before[0]), PieceValue(c, after[0]), depth + 1))
      && RedactedPieces(c, before[1..], after[1..], depth)))
  }

  /** A parameter is encoded as many times as before around a redacted text of the same shape. */
  predicate RedactedParam(c: Codecs, before: string, after: string, depth: nat)
    decreases Room(depth), 5, 0
  {
    if depth > MAX_DEPTH || before == "" then after == before
    else match Unwrap(c, before, 0)
      case None => after == before
      case Some(f) =>
        && Unwrap(c, after, 0).Some?
        && var g := Unwrap(c, after, 0).value;
           g.decodes == f.decodes && g.shape == f.shape && RedactedText(c, f.text, g.text, f.shape, depth + 1)
  }

  /** The sanitizer's output mirrors its input with exactly the sensitive values replaced. */
  lemma {:induction false} ValueRedacted(c: Codecs, v: Json, depth: nat)
    requires Lawful(c)
    ensures Redacted(c, v, SanitizeValue(c, v, depth), depth)
    decreases Room(depth), 6, 0
  {
    if depth <= MAX_DEPTH {
      match v
      case Arr(items) => ItemsRedacted(c, items, depth);
      case Obj(fields) => FieldsRedacted(c, fields, depth);
      case Str(s) =>
        StringByShape(c, s, depth);
        TextRedacted(c, s, ShapeOf(c, s, 1), 1, depth);
      case _ =>
    }
  }

  lemma {:induction false} ItemsRedacted(c: Codecs, items: seq<Json>, depth: nat)
    requires Lawful(c) && depth <= MAX_DEPTH
    ensures RedactedItems(c, items, SanitizeItems(c, items, depth), depth)
    decreases Room(depth), 5, |items|
  {
    if items != [] {
      ValueRedacted(c, items[0], depth + 1);
      ItemsRedacted(c, items[1..], depth);
      assert SanitizeItems(c, items, depth)[1..] == SanitizeItems(c, items[1..], depth);
    }
  }

  lemma {:induction false} FieldsRedacted(c: Codecs, fields: seq<Field>, depth: nat)
    requires Lawful(c) && depth <= MAX_DEPTH
    ensures RedactedFields(c, fields, SanitizeFields(c, fields, depth), depth)
    decreases Room(depth), 5, |fields|
  {
    if fields != [] {
      ValueRedacted(c, fields[0].value, depth + 1);
      FieldsRedacted(c, fields[1..], depth);
      var all, rest := SanitizeFields(c, fields, depth), SanitizeFields(c, fields[1..], depth);
      if fields[0].key == PROTO {
        assert all == rest;
      } else {
        assert all[1..] == rest;
      }
    }
  }

  lemma {:induction false} TextRedacted(c: Codecs, s: string, shape: Shape, decodes: nat, depth: nat)
    requires Lawful(c) && depth <= MAX_DEPTH + 1
    requires ShapeOf(c, s, decodes) == shape
    ensures RedactedText(c, s, SanitizeShape(c, s, shape, depth), shape, depth)
    decreases Room(depth), 4, 0
  {
    match shape
    case AsUrl =>
      if depth <= MAX_DEPTH && ParseUrl(c, s).Some? {
        UrlRedacted(c, s, ParseUrl(c, s).value, depth);
      }
    case AsJson => JsonRedacted(c, s, depth);
    case AsQuery =>
      if depth <= MAX_DEPTH {
        var pieces := Split(s, '&');
        PiecesRedacted(c, pieces, depth);
        PiecesIdempotent(c, pieces, depth);
        SplitJoin(SanitizePieces(c, pieces, depth), '&');
      }
    case Plain =>
  }

  lemma {:induction false} JsonRedacted(c: Codecs, s: string, depth: nat)
    requires Lawful(c) && depth <= MAX_DEPTH + 1 && LooksLikeJson(c, Trim(s))
    ensures RedactedText(c, s, SanitizeJsonString(c, s, depth), AsJson, depth)
    decreases Room(depth), 3, 0
  {
    match c.parseJson(s)
    case None =>
    case Some(v) =>
      var once := SanitizeValue(c, v, depth + 1);
      assert Container(v) && Proper(c, v);
      SanitizedProper(c, v, depth + 1);
      assert c.parseJson(c.stringify(once)) == Some(once);
      ValueRedacted(c, v, depth + 1);
  }

  lemma {:induction false} UrlRedacted(c: Codecs, s: string, u: Url, depth: nat)
    requires Lawful(c) && depth <= MAX_DEPTH && LooksLikeUrl(s) && ParseUrl(c, s) == Some(u)
    ensures RedactedText(c, s, SanitizeUrlLike(c, s, depth), AsUrl, depth)
    decreases Room(depth), 3, 0
  {
    var ps := SanitizeParams(c, u.params, depth);
    ParamsRedacted(c, u.params, depth);
    ParamsIdempotent(c, u.params, depth);
    if HasSensitive(c, u.params) || ps != u.params {
      assert AbsoluteLaw(c, s, ps) && RelativeLaw(c, s, ps);
    }
  }

  lemma {:induction false} ParamsRedacted(c: Codecs, ps: seq<Param>, depth: nat)
    requires Lawful(c) && depth <= MAX_DEPTH
    ensures RedactedParams(c, ps, SanitizeParams(c, ps, depth), depth)
    decreases Room(depth), 2, |ps|
  {
    if ps != [] {
      ParamRedacted(c, ps[0].value, depth + 1);
      ParamsRedacted(c, ps[1..], depth);
      assert SanitizeParams(c, ps, depth)[1..] == SanitizeParams(c, ps[1..], depth);
    }
  }

  lemma {:induction false} PiecesRedacted(c: Codecs, pieces: seq<string>, depth: nat)
    requires Lawful(c) && depth <= MAX_DEPTH
    requires forall p :: p in pieces ==> NoSpace(p) && IndexOf(p, '=') >= 1
    ensures RedactedPieces(c, pieces, SanitizePieces(c, pieces, depth), depth)
    decreases Room(depth), 2, |pieces|
  {
    if pieces != [] {
      PieceRedacted(c, pieces[0], depth);
      PiecesRedacted(c, pieces[1..], depth);
      var key := PieceKey(c, pieces[0]);
      var value := if c.sensitive(key) then REDACTED else SanitizeParamValue(c, PieceValue(c, pieces[0]), depth + 1);
      PiecesStep(c, pieces, c.encode(key) + "=" + c.encode(value), SanitizePieces(c, pieces[1..], depth), depth);
    }
  }

  lemma {:induction false} PieceRedacted(c: Codecs, before: string, depth: nat)
    requires Lawful(c) && depth <= MAX_DEPTH && IndexOf(before, '=') >= 1
    ensures var key := PieceKey(c, before);
            var value := if c.sensitive(key) then REDACTED else SanitizeParamValue(c, PieceValue(c, before), depth + 1);
            var after := c.encode(key) + "=" + c.encode(value);
            && PieceKey(c, after) == key
            && PieceValue(c, after) == value
            && (!c.sensitive(key) ==> RedactedParam(c, PieceValue(c, before), value, depth + 1))
    decreases Room(depth), 1, 0
  {
    var key := PieceKey(c, before);
    PieceKeyNonEmpty(c, before);
    EncodedPiece(c, key, if c.sensitive(key) then REDACTED else SanitizeParamValue(c, PieceValue(c, before), depth + 1));
    ParamRedacted(c, PieceValue(c, before), depth + 1);
  }

  lemma PiecesStep(c: Codecs, before: seq<string>, piece: string, rest: seq<string>, depth: nat)
    requires depth <= MAX_DEPTH && before != []
    requires PieceKey(c, piece) == PieceKey(c, before[0])
    requires if c.sensitive(PieceKey(c, piece)) then PieceValue(c, piece) == REDACTED
             else RedactedParam(c, PieceValue(c, before[0]), PieceValue(c, piece), depth + 1)
    requires RedactedPieces(c, before[1..], rest, depth)
    ensures RedactedPieces(c, before, [piece] + rest, depth)
  {
    assert ([piece] + rest)[1..] == rest;
  }

  lemma {:induction false} ParamRedacted(c: Codecs, s: string, depth: nat)
    requires Lawful(c)
    ensures RedactedParam(c, s, SanitizeParamValue(c, s, depth), depth)
    decreases Room(depth), 5, 0
  {
    if depth <= MAX_DEPTH && s != "" && Unwrap(c, s, 0).Some? {
      var f := Unwrap(c, s, 0).value;
      UnwrapBounds(c, s, 0);
      TextRedacted(c, f.text, f.shape, f.decodes, depth + 1);
      var once := SanitizeShape(c, f.text, f.shape, depth + 1);
      UnwrapsAgain(c, f.text, f.shape, f.decodes, depth);
      ParamMirrors(c, s, f, once, depth);
    }
  }

  lemma UnwrapsAgain(c: Codecs, text: string, shape: Shape, decodes: nat, depth: nat)
    requires Lawful(c) && depth <= MAX_DEPTH && decodes < MAX_DECODE_ITERATIONS
    requires shape != Plain && ShapeOf(c, text, decodes) == shape
    ensures var once := SanitizeShape(c, text, shape, depth + 1);
            Unwrap(c, Reencode(c, once, decodes), 0) == Some(Found(once, decodes, shape))
  {
    ShapeIdempotent(c, text, shape, decodes, depth + 1);
    ReencodedParam(c, SanitizeShape(c, text, shape, depth + 1), shape, decodes, depth);
  }

  lemma ParamMirrors(c: Codecs, s: string, f: Found, once: string, depth: nat)
    requires depth <= MAX_DEPTH && s != "" && Unwrap(c, s, 0) == Some(f)
    requires once == SanitizeShape(c, f.text, f.shape, depth + 1) && RedactedText(c, f.text, once, f.shape, depth + 1)
    requires Unwrap(c, Reencode(c, once, f.decodes), 0) == Some(Found(once, f.decodes, f.shape))
    ensures RedactedParam(c, s, SanitizeParamValue(c, s, depth), depth)
  {}

  /** An object keeps all its keys exactly when none of them is `__proto__`. */
  lemma {:induction false} KeysKept(c: Codecs, fields: seq<Field>, depth: nat)
    requires depth <= MAX_DEPTH
    ensures Keys(SanitizeFields(c, fields, depth)) == Keys(fields) <==> PROTO !in Keys(fields)
    ensures |SanitizeFields(c, fields, depth)| <= |fields|
  {
    if fields != [] {
      KeysKept(c, fields[1..], depth);
      var all, rest := SanitizeFields(c, fields, depth), SanitizeFields(c, fields[1..], depth);
      KeysLength(all);
      KeysLength(fields);
      if fields[0].key == PROTO {
        assert all == rest;
      } else {
        assert all[1..] == rest;
        Order.ConsEqual(fields[0].key, Keys(rest), fields[0].key, Keys(fields[1..]));
      }
    }
  }

  lemma {:induction false} KeysLength(fields: seq<Field>)
    ensures |Keys(fields)| == |fields|
  {
    if fields != [] {
      KeysLength(fields[1..]);
    }
  }

  /** One rewritten relative URL with a single sensitive parameter. */
  lemma RelativeRedacted(c: Codecs, s: string, u: Url, key: string, value: string)
    requires IsRelativeUrlWithQuery(s) && c.sensitive(key)
    requires c.parseRelative(s) == Some(u) && u.params == [Param(key, value)]
    ensures SanitizeStringValue(c, s, 0) == u.path + c.search([Param(key, REDACTED)]) + u.hash
  {
    UrlIsNotJson(c, s);
    assert !IsAbsoluteUrl(s);
    assert SanitizeParams(c, u.params, 0) == [Param(key, REDACTED)] by {
      assert u.params[1..] == [];
    }
    assert u.params[0] in u.params;
  }

  lemma NoSpaceByIndex(s: string)
    requires forall i :: 0 <= i < |s| ==> !IsSpace(s[i])
    ensures NoSpace(s)
  {}

  /** A rewritten relative URL reads back as the same URL, redacted, exactly when it names no host of its own and its path does
      not start with two slashes: its printed form has no origin. */
  lemma RelativeMeaningExactly(c: Codecs, s: string, u: Url, depth: nat)
    requires UrlLaws(c) && depth <= MAX_DEPTH && IsRelativeUrlWithQuery(s) && c.parseRelative(s) == Some(u)
    requires HasSensitive(c, u.params) || SanitizeUrlLike(c, s, depth) != s
    ensures c.parseRelative(SanitizeUrlLike(c, s, depth)) == Some(u.(params := SanitizeParams(c, u.params, depth)))
            <==> u.origin == PLACEHOLDER && !StartsAs(u.path, "//")
  {
    assert !IsAbsoluteUrl(s);
    SanitizedLength(c, u.params, depth);
    assert RelativeLaw(c, s, SanitizeParams(c, u.params, depth));
  }

  lemma {:induction false} SanitizedLength(c: Codecs, ps: seq<Param>, depth: nat)
    requires depth <= MAX_DEPTH
    ensures |SanitizeParams(c, ps, depth)| == |ps|
  {
    if ps != [] {
      SanitizedLength(c, ps[1..], depth);
    }
  }

  /** The second pass is not always a no-op: with the readings below, which the WHATWG URL rules give, the path
      "/.//x" normalises to "//x", is printed as a relative URL, and loses its host when it is read again. */
  lemma SecondPassCanDiffer(c: Codecs, first: string, query: string, second: string)
    requires first == "/.//x?cid=1" && query == "?cid=%5Bredacted%5D" && second == "//x" + query
    requires c.sensitive("cid") && c.search([Param("cid", REDACTED)]) == query
    requires c.parseRelative(first) == Some(Url(PLACEHOLDER, "//x", [Param("cid", "1")], ""))
    requires c.parseRelative(second) == Some(Url("http://x", "/", [Param("cid", REDACTED)], ""))
    ensures SanitizeStringValue(c, first, 0) == second
    ensures SanitizeStringValue(c, second, 0) == "/" + query != second
  {
    NoSpaceByIndex(first);
    NoSpaceByIndex(second);
    assert first[5] == '?' && second[3] == '?';
    RelativeRedacted(c, first, c.parseRelative(first).value, "cid", "1");
    RelativeRedacted(c, second, c.parseRelative(second).value, "cid", REDACTED);
    assert "//x" + query + "" == second && "/" + query + "" == "/" + query;
  }
}
