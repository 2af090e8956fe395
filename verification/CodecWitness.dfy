/** A codec that obeys all the laws, with JSON, percent-encoding and URLs: nothing proved of lawful codecs is empty, and the
    inputs that fall short are read as claimed. */
module CodecWitness {
  import opened Wrappers
  import opened Text
  import opened Codec
  import opened Percent
  import opened JsonWitness
  import opened UrlWitness
  import opened Sanitizer
  import opened SanitizerRedaction

  const CODECS := Codecs(
    (s: string) => Parse(s), (v: Json) => Print(v), (s: string) => Encode(s), (s: string) => Decode(s),
    (s: string) => ParseAbsolute(s), (s: string) => ParseRelative(s), (u: Url) => Href(u), (ps: seq<Param>) => Search(ps),
    (s: string) => IsNumber(s), (path: string) => Authority(path),
    (keys: seq<string>) => NoRepeats(keys), (key: string) => key == "cid", (s: string) => s, (row: Json, name: string) => false)

  lemma {:induction false} ProperIsPrintable(v: Json)
    ensures Proper(CODECS, v) <==> Printable(v)
    decreases v
  {
    match v
    case Arr(items) =>
      forall x | x in items ensures Proper(CODECS, x) <==> Printable(x) { ProperIsPrintable(x); }
    case Obj(fields) =>
      forall f | f in fields ensures Proper(CODECS, f.value) <==> Printable(f.value) { ProperIsPrintable(f.value); }
    case _ =>
  }

  lemma JsonIsLawful()
    ensures JsonLaws(CODECS)
  {
    forall v: Json
      ensures Proper(CODECS, v) <==> Printable(v)
      ensures Container(v) ==> Bracketed(Print(v)) && (Printable(v) ==> Parse(Print(v)) == Some(v))
    {
      ProperIsPrintable(v);
      if Container(v) { ContainerRoundTrip(v); }
    }
    forall s: string | Parse(s).Some?
      ensures Trim(s) == s && Printable(Parse(s).value)
    {
      TrimIdentity(s);
    }
    forall s: string
      ensures StartsWithBracket(CODECS, Trim(s))
    {
      ContainerStarts(Trim(s));
    }
    forall keys: seq<string>
      ensures NoRepeats(keys) ==> NoRepeats(Without(keys, PROTO))
    {
      WithoutNoRepeats(keys, PROTO);
    }
  }

  lemma PercentIsLawful()
    ensures PercentLaws(CODECS)
  {
    forall s: string
      ensures Decode(Encode(s)) == Some(s) && AllEscaped(Encode(s))
      ensures s != "" ==> Encode(s) != "" && (Decode(s).Some? ==> Decode(s).value != "")
    {
      DecodeEncode(s);
      EncodeEscaped(s);
    }
  }

  lemma RelativeIsLawful(s: string, ps: seq<Param>)
    ensures RelativeLaw(CODECS, s, ps)
  {
    if IsRelativeUrlWithQuery(s) && ParseRelative(s).Some? && ps != [] {
      var u := ParseRelative(s).value;
      ParsedRelative(s);
      QueryChars(ps);
      ReadAgain(u.path, ps, u.hash);
      RelativeForm(u.path, ps, u.hash);
      if StartsAs(u.path, "//") && Authority(u.path) { ShorterPath(u.path); }
    }
  }

  lemma AbsoluteIsLawful(s: string, ps: seq<Param>)
    ensures AbsoluteLaw(CODECS, s, ps)
  {
    if ParseAbsolute(s).Some? && ps != [] { AbsoluteAgain(s, ps); }
  }

  lemma LawsAreConsistent()
    ensures Lawful(CODECS)
  {
    JsonIsLawful();
    PercentIsLawful();
    forall s: string, ps: seq<Param>
      ensures AbsoluteLaw(CODECS, s, ps) && RelativeLaw(CODECS, s, ps)
    {
      AbsoluteIsLawful(s, ps);
      RelativeIsLawful(s, ps);
    }
  }

  // ---------------------------------------------------------------- the inputs that fall short

  predicate HostName(host: string) {
    host != "" && '/' !in host && '?' !in host && '#' !in host && NoSpace(host)
  }

  function Slashes(host: string, path: string): string {
    ['/', '/'] + (host + path)
  }

  lemma ReadOne(path: string, p: Param)
    requires path != "" && path[0] == '/' && '?' !in path && '#' !in path
    ensures ParseRelative(path + Search([p])) ==
              if !StartsAs(path, "//") then Some(Url(PLACEHOLDER, Normal(path), [p], ""))
              else if !Authority(path) then None
              else Some(Url("http://" + Before(path[2..], '/'), PathAfter(path[2..]), [p], ""))
  {
    ReadAgain(path, [p], "");
    assert path + Search([p]) + "" == path + Search([p]);
  }

  /** Two slashes, a host, and a path that is empty or begins with one slash and no dot. */
  lemma ReadHost(host: string, path: string, p: Param)
    requires HostName(host) && '?' !in path && '#' !in path
    requires path != "" ==> path[0] == '/' && !StartsAs(path, "/./")
    ensures ParseRelative(Slashes(host, path) + Search([p])) ==
              Some(Url("http://" + host, if path == "" then "/" else path, [p], ""))
  {
    var text := Slashes(host, path);
    CutAt(host, path, '/');
    assert text[..2] == "//" && text[2..] == host + path;
    ReadOne(text, p);
  }

  function Dotted(path: string): string {
    ['/', '.'] + path
  }

  lemma DottedIsNot(path: string)
    requires path != "" && path[0] == '/' && !StartsAs(path, "/./")
    ensures Normal(Dotted(path)) == path && !StartsAs(Dotted(path), "//") && NoSpace(Dotted(path)) == NoSpace(path)
  {
    var dotted := Dotted(path);
    assert dotted[..3] == "/./" && dotted[2..] == path;
    assert dotted[..2][1] == '.';
    assert forall x :: x in path ==> x in dotted;
  }

  /** A dot segment in front of the two slashes: then they belong to the path. */
  lemma ReadDotted(path: string, p: Param)
    requires path != "" && path[0] == '/' && !StartsAs(path, "/./") && '?' !in path && '#' !in path
    ensures ParseRelative(Dotted(path) + Search([p])) == Some(Url(PLACEHOLDER, path, [p], ""))
  {
    DottedIsNot(path);
    ReadOne(Dotted(path), p);
  }

  /** A text of this form is sanitized as a relative URL. */
  lemma OneRedacted(text: string, path: string, value: string, u: Url)
    requires path != "" && path[0] == '/' && NoSpace(path) && text == path + Search([Param("cid", value)])
    requires ParseRelative(text) == Some(u) && u.params == [Param("cid", value)] && u.hash == ""
    ensures SanitizeStringValue(CODECS, text, 0) == u.path + Search([Param("cid", REDACTED)])
  {
    RelativeForm(path, [Param("cid", value)], "");
    assert text + "" == text;
    RelativeRedacted(CODECS, text, u, "cid", value);
    var out := u.path + Search([Param("cid", REDACTED)]);
    assert out + "" == out;
  }

  /** Two slashes and a host name make a path of their own. */
  lemma SlashesShape(host: string, path: string)
    requires HostName(host) && '?' !in path && '#' !in path && NoSpace(path)
    ensures var text := Slashes(host, path);
            |text| > 1 && text[0] == '/' && !StartsAs(text, "/./") && '?' !in text && '#' !in text && NoSpace(text)
  {
    var text := Slashes(host, path);
    assert |text| >= 3 && text[..3][1] == '/';
    assert forall x :: x in text ==> x == '/' || x in host || x in path;
  }

  /** The first pass takes the dot segment away, */
  lemma DotDropped(path: string, value: string)
    requires path != "" && path[0] == '/' && !StartsAs(path, "/./") && '?' !in path && '#' !in path && NoSpace(path)
    ensures SanitizeStringValue(CODECS, Dotted(path) + Search([Param("cid", value)]), 0) ==
        path + Search([Param("cid", REDACTED)])
  {
    var given := Param("cid", value);
    ReadDotted(path, given);
    DottedIsNot(path);
    OneRedacted(Dotted(path) + Search([given]), Dotted(path), value, Url(PLACEHOLDER, path, [given], ""));
  }

  /** and any pass takes the host off a text that starts with one. */
  lemma HostDropped(host: string, path: string, value: string)
    requires HostName(host) && '?' !in path && '#' !in path && NoSpace(path)
    requires path != "" ==> path[0] == '/' && !StartsAs(path, "/./")
    ensures SanitizeStringValue(CODECS, Slashes(host, path) + Search([Param("cid", value)]), 0) ==
              (if path == "" then "/" else path) + Search([Param("cid", REDACTED)])
  {
    var given := Param("cid", value);
    ReadHost(host, path, given);
    SlashesShape(host, path);
    OneRedacted(Slashes(host, path) + Search([given]), Slashes(host, path), value,
                Url("http://" + host, if path == "" then "/" else path, [given], ""));
  }

  /** Under a lawful codec the second pass changes "/.//host?cid=value", whatever host and value are. */
  lemma SecondPassDiffers(host: string, value: string)
    requires HostName(host)
    ensures var once := Slashes(host, "") + Search([Param("cid", REDACTED)]);
            && Lawful(CODECS)
            && SanitizeStringValue(CODECS, Dotted(Slashes(host, "")) + Search([Param("cid", value)]), 0) == once
            && SanitizeStringValue(CODECS, once, 0) == "/" + Search([Param("cid", REDACTED)])
            && |SanitizeStringValue(CODECS, once, 0)| < |once|
  {
    LawsAreConsistent();
    SlashesShape(host, "");
    DotDropped(Slashes(host, ""), value);
    HostDropped(host, "", REDACTED);
  }

  /** Under a lawful codec the first pass takes the host off "//host/path?cid=value". */
  lemma FirstPassDropsHost(host: string, path: string, value: string)
    requires HostName(host) && path != "" && path[0] == '/' && !StartsAs(path, "/./")
    requires '?' !in path && '#' !in path && NoSpace(path)
    ensures var text := Slashes(host, path) + Search([Param("cid", value)]);
            && Lawful(CODECS)
            && CODECS.parseRelative(text) == Some(Url("http://" + host, path, [Param("cid", value)], ""))
            && SanitizeStringValue(CODECS, text, 0) == path + Search([Param("cid", REDACTED)])
  {
    LawsAreConsistent();
    ReadHost(host, path, Param("cid", value));
    HostDropped(host, path, value);
  }
}
