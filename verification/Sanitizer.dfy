/** The recursive sanitizer of the n8n transform: values, JSON in strings, URLs, query strings and encoded parameters. */
module Sanitizer {
  import opened Wrappers
  import opened Text
  import opened Codec

  const MAX_DEPTH: nat := 24
  const MAX_DECODE_ITERATIONS: nat := 4
  const REDACTED := "[redacted]"

  /** Levels left before every sanitizer function returns its input. */
  function Room(depth: nat): nat {
    if depth <= MAX_DEPTH + 2 then MAX_DEPTH + 2 - depth else 0
  }

  predicate LooksLikeJson(c: Codecs, trimmed: string) {
    trimmed != "" && trimmed[0] in "{[" && c.parseJson(trimmed).Some? && Container(c.parseJson(trimmed).value)
  }

  function DecodeFormComponent(c: Codecs, s: string): string {
    c.decode(ReplacePlus(s)).GetOr(s)
  }

  function Reencode(c: Codecs, s: string, times: nat): string {
    if times == 0 then s else c.encode(Reencode(c, s, times - 1))
  }

  function SanitizeValue(c: Codecs, v: Json, depth: nat): Json
    decreases Room(depth), 6, 0
  {
    if depth > MAX_DEPTH then v
    else match v
      case Arr(items) => Arr(SanitizeItems(c, items, depth))
      case Obj(fields) => Obj(SanitizeFields(c, fields, depth))
      case Str(s) => Str(SanitizeStringValue(c, s, depth))
      case _ => v
  }

  function SanitizeItems(c: Codecs, items: seq<Json>, depth: nat): seq<Json>
    requires depth <= MAX_DEPTH
    decreases Room(depth), 5, |items|
  {
    if items == [] then [] else [SanitizeValue(c, items[0], depth + 1)] + SanitizeItems(c, items[1..], depth)
  }

  /** Assigning `out["__proto__"]` sets the prototype instead of adding a key, so that one key is lost. */
  function SanitizeFields(c: Codecs, fields: seq<Field>, depth: nat): seq<Field>
    requires depth <= MAX_DEPTH
    decreases Room(depth), 5, |fields|
  {
    if fields == [] then []
    else
      var key := fields[0].key;
      var value := if c.sensitive(key) then Str(REDACTED) else SanitizeValue(c, fields[0].value, depth + 1);
      (if key == PROTO then [] else [Field(key, value)]) + SanitizeFields(c, fields[1..], depth)
  }

  function SanitizeStringValue(c: Codecs, s: string, depth: nat): string
    decreases Room(depth), 4, 0
  {
    if s == "" || depth > MAX_DEPTH then s
    else if LooksLikeJson(c, Trim(s)) then SanitizeJsonString(c, s, depth)
    else if LooksLikeUrl(s) then SanitizeUrlLike(c, s, depth)
    else if LooksLikeQueryString(s) then SanitizeQueryString(c, s, depth)
    else s
  }

  function SanitizeJsonString(c: Codecs, s: string, depth: nat): string
    requires depth <= MAX_DEPTH + 1
    decreases Room(depth), 3, 0
  {
    match c.parseJson(s)
    case None => s
    case Some(parsed) => c.stringify(SanitizeValue(c, parsed, depth + 1))
  }

  /** The query entries after sanitizing, in order. */
  function SanitizeParams(c: Codecs, ps: seq<Param>, depth: nat): seq<Param>
    requires depth <= MAX_DEPTH
    decreases Room(depth), 2, |ps|
  {
    if ps == [] then []
    else
      var value := if c.sensitive(ps[0].key) then REDACTED else SanitizeParamValue(c, ps[0].value, depth + 1);
      [Param(ps[0].key, value)] + SanitizeParams(c, ps[1..], depth)
  }

  predicate HasSensitive(c: Codecs, ps: seq<Param>) {
    exists p :: p in ps && c.sensitive(p.key)
  }

  function SanitizeUrlLike(c: Codecs, s: string, depth: nat): string
    decreases Room(depth), 3, 0
  {
    if depth > MAX_DEPTH then s
    else match ParseUrl(c, s)
      case None => s
      case Some(u) =>
        var ps := SanitizeParams(c, u.params, depth);
        if !HasSensitive(c, u.params) && ps == u.params then s
        else UrlText(c, IsAbsoluteUrl(s), u.(params := ps))
  }

  function SanitizeQueryString(c: Codecs, s: string, depth: nat): string
    decreases Room(depth), 3, 0
  {
    if depth > MAX_DEPTH then s else Join(SanitizePieces(c, Split(s, '&'), depth), '&')
  }

  function PieceKey(c: Codecs, piece: string): string {
    var i := IndexOf(piece, '=');
    DecodeFormComponent(c, if i == -1 then piece else piece[..i])
  }

  function PieceValue(c: Codecs, piece: string): string {
    var i := IndexOf(piece, '=');
    DecodeFormComponent(c, if i == -1 then "" else piece[i + 1..])
  }

  function SanitizePieces(c: Codecs, pieces: seq<string>, depth: nat): (r: seq<string>)
    requires depth <= MAX_DEPTH
    ensures |r| == |pieces|
    decreases Room(depth), 2, |pieces|
  {
    if pieces == [] then []
    else
      var key := PieceKey(c, pieces[0]);
      var value := if c.sensitive(key) then REDACTED else SanitizeParamValue(c, PieceValue(c, pieces[0]), depth + 1);
      [c.encode(key) + "=" + c.encode(value)] + SanitizePieces(c, pieces[1..], depth)
  }

  datatype Shape = AsUrl | AsJson | AsQuery | Plain

  /** What a parameter value looks like after `decodes` rounds of decoding; a query string only counts once decoded. */
  function ShapeOf(c: Codecs, s: string, decodes: nat): Shape {
    if LooksLikeUrl(s) then AsUrl
    else if LooksLikeJson(c, Trim(s)) then AsJson
    else if decodes > 0 && LooksLikeQueryString(s) then AsQuery
    else Plain
  }

  datatype Found = Found(text: string, decodes: nat, shape: Shape)

  /** The first recognisable shape reached by repeated decoding, within the iteration bound. */
  function Unwrap(c: Codecs, current: string, decodes: nat): Option<Found>
    decreases MAX_DECODE_ITERATIONS - decodes
  {
    if decodes >= MAX_DECODE_ITERATIONS then None
    else
      var shape := ShapeOf(c, current, decodes);
      if shape != Plain then Some(Found(current, decodes, shape))
      else match c.decode(current)
        case None => None
        case Some(next) => if next == current then None else Unwrap(c, next, decodes + 1)
  }

  function SanitizeShape(c: Codecs, s: string, shape: Shape, depth: nat): string
    requires depth <= MAX_DEPTH + 1
    decreases Room(depth), 4, 0
  {
    match shape
    case AsUrl => SanitizeUrlLike(c, s, depth)
    case AsJson => SanitizeJsonString(c, s, depth)
    case AsQuery => SanitizeQueryString(c, s, depth)
    case Plain => s
  }

  function SanitizeParamValue(c: Codecs, s: string, depth: nat): string
    decreases Room(depth), 5, 0
  {
    if depth > MAX_DEPTH || s == "" then s
    else match Unwrap(c, s, 0)
      case None => s
      case Some(f) => Reencode(c, SanitizeShape(c, f.text, f.shape, depth + 1), f.decodes)
  }

  /** What a sanitized object holds under a name, in terms of what it held before. */
  lemma {:induction false} FieldsRead(c: Codecs, fields: seq<Field>, name: string, depth: nat)
    requires depth <= MAX_DEPTH
    ensures Lookup(SanitizeFields(c, fields, depth), name) ==
              if name == PROTO || Lookup(fields, name).None? then None
              else if c.sensitive(name) then Some(Str(REDACTED))
              else Some(SanitizeValue(c, Lookup(fields, name).value, depth + 1))
  {
    if fields != [] {
      FieldsRead(c, fields[1..], name, depth);
      var all, rest := SanitizeFields(c, fields, depth), SanitizeFields(c, fields[1..], depth);
      if fields[0].key == PROTO {
        assert all == rest;
      } else {
        assert all[1..] == rest;
      }
    }
  }

  /** Encodes as many times as the text had been decoded. */
  method ReencodeLoop(c: Codecs, s: string, times: nat) returns (out: string)
    ensures out == Reencode(c, s, times)
  {
    out := s;
    for i := 0 to times
      invariant out == Reencode(c, s, i)
    {
      out := c.encode(out);
    }
  }

  /** The decoding loop: it sanitizes the first shape it recognises and gives up at the bound. */
  method SanitizeParamLoop(c: Codecs, s: string, depth: nat) returns (out: string)
    ensures out == SanitizeParamValue(c, s, depth)
  {
    if depth > MAX_DEPTH || s == "" {
      return s;
    }
    var current, decodes := s, 0;
    while decodes < MAX_DECODE_ITERATIONS
      invariant decodes <= MAX_DECODE_ITERATIONS
      invariant Unwrap(c, s, 0) == Unwrap(c, current, decodes)
    {
      if LooksLikeUrl(current) {
        out := ReencodeLoop(c, SanitizeUrlLike(c, current, depth + 1), decodes);
        return;
      }
      if LooksLikeJson(c, Trim(current)) {
        out := ReencodeLoop(c, SanitizeJsonString(c, current, depth + 1), decodes);
        return;
      }
      if decodes > 0 && LooksLikeQueryString(current) {
        out := ReencodeLoop(c, SanitizeQueryString(c, current, depth + 1), decodes);
        return;
      }
      var next := c.decode(current);
      if next.None? || next.value == current {
        break;
      }
      current, decodes := next.value, decodes + 1;
    }
    out := s;
  }

  lemma SensitiveSnoc(c: Codecs, ps: seq<Param>, p: Param)
    ensures HasSensitive(c, ps + [p]) <==> HasSensitive(c, ps) || c.sensitive(p.key)
  {
    assert p in ps + [p];
    assert forall q :: q in ps ==> q in ps + [p];
  }

  lemma SnocEqual<T>(x: seq<T>, a: T, y: seq<T>, b: T)
    ensures x + [a] == y + [b] <==> x == y && a == b
  {
    if x + [a] == y + [b] {
      assert |x| == |y|;
      assert (x + [a])[|x|] == a && (y + [b])[|y|] == b;
      assert (x + [a])[..|x|] == x && (y + [b])[..|y|] == y;
    }
  }

  function SanitizedParam(c: Codecs, p: Param, depth: nat): Param {
    Param(p.key, if c.sensitive(p.key) then REDACTED else SanitizeParamValue(c, p.value, depth + 1))
  }

  lemma {:induction false} SanitizeParamsSnoc(c: Codecs, ps: seq<Param>, p: Param, depth: nat)
    requires depth <= MAX_DEPTH
    ensures SanitizeParams(c, ps + [p], depth) == SanitizeParams(c, ps, depth) + [SanitizedParam(c, p, depth)]
  {
    if ps == [] {
      assert [p][1..] == [];
    } else {
      SanitizeParamsSnoc(c, ps[1..], p, depth);
      assert (ps + [p])[1..] == ps[1..] + [p];
    }
  }

  /** What the query loop holds after reading `ps`. */
  predicate Rewritten(c: Codecs, ps: seq<Param>, depth: nat, newParams: seq<Param>, changed: bool)
    requires depth <= MAX_DEPTH
  {
    newParams == SanitizeParams(c, ps, depth) && (changed <==> HasSensitive(c, ps) || newParams != ps)
  }

  lemma RewrittenSnoc(c: Codecs, ps: seq<Param>, p: Param, depth: nat, newParams: seq<Param>, changed: bool)
    requires depth <= MAX_DEPTH && Rewritten(c, ps, depth, newParams, changed)
    ensures Rewritten(c, ps + [p], depth, newParams + [SanitizedParam(c, p, depth)],
                      changed || c.sensitive(p.key) || SanitizedParam(c, p, depth) != p)
  {
    SensitiveSnoc(c, ps, p);
    SanitizeParamsSnoc(c, ps, p, depth);
    SnocEqual(newParams, SanitizedParam(c, p, depth), ps, p);
  }

  /** The query loop: `changed` ends up true exactly when the original text may not be returned as it is. */
  method RewriteParams(c: Codecs, ps: seq<Param>, depth: nat) returns (newParams: seq<Param>, changed: bool)
    requires depth <= MAX_DEPTH
    ensures newParams == SanitizeParams(c, ps, depth)
    ensures changed <==> HasSensitive(c, ps) || newParams != ps
  {
    newParams, changed := [], false;
    for i := 0 to |ps|
      invariant Rewritten(c, ps[..i], depth, newParams, changed) == true  // the equation keeps the definition folded
    {
      assert ps[..i + 1] == ps[..i] + [ps[i]];
      RewrittenSnoc(c, ps[..i], ps[i], depth, newParams, changed);
      if c.sensitive(ps[i].key) {
        newParams, changed := newParams + [Param(ps[i].key, REDACTED)], true;
      } else {
        var sanitized := SanitizeParamValue(c, ps[i].value, depth + 1);
        if sanitized != ps[i].value {
          changed := true;
        }
        newParams := newParams + [Param(ps[i].key, sanitized)];
      }
    }
    assert ps[..|ps|] == ps;
  }
}
