/** The URL half of a codec that obeys all the laws: absolute URLs, and relative ones read against the placeholder origin. Of path
    normalisation it knows the dot segment at the start of a path. */
module UrlWitness {
  import opened Wrappers
  import opened Text
  import opened Codec
  import opened Percent

  // ---------------------------------------------------------------- cutting a text at a character

  function Before(s: string, c: char): string {
    var i := IndexOf(s, c);
    if i == -1 then s else s[..i]
  }

  function From(s: string, c: char): string {
    var i := IndexOf(s, c);
    if i == -1 then "" else s[i..]
  }

  lemma CutHolds(s: string, c: char)
    ensures s == Before(s, c) + From(s, c) && c !in Before(s, c)
    ensures From(s, c) != "" ==> From(s, c)[0] == c
  {}

  /** A text cut where its first part ends. */
  lemma CutAt(head: string, tail: string, c: char)
    requires c !in head && (tail != "" ==> tail[0] == c)
    ensures Before(head + tail, c) == head && From(head + tail, c) == tail
  {
    var s := head + tail;
    if tail == "" {
      assert s == head;
    } else {
      assert s[|head|] == c;
      var i := IndexOf(s, c);
      assert forall k :: 0 <= k < |head| ==> s[k] == head[k];
      assert i == |head|;
    }
  }

  // ---------------------------------------------------------------- queries

  function PairText(p: Param): string {
    Encode(p.key) + "=" + Encode(p.value)
  }

  function PairTexts(ps: seq<Param>): (r: seq<string>)
    ensures |r| == |ps|
  {
    if ps == [] then [] else [PairText(ps[0])] + PairTexts(ps[1..])
  }

  function Search(ps: seq<Param>): string {
    if ps == [] then "" else "?" + Join(PairTexts(ps), '&')
  }

  function Decoded(s: string): string {
    Decode(ReplacePlus(s)).GetOr(s)
  }

  function PairOf(text: string): Param {
    var i := IndexOf(text, '=');
    if i == -1 then Param(Decoded(text), "") else Param(Decoded(text[..i]), Decoded(text[i + 1..]))
  }

  function PairsOf(texts: seq<string>): seq<Param> {
    if texts == [] then []
    else (if texts[0] == "" then [] else [PairOf(texts[0])]) + PairsOf(texts[1..])
  }

  function Query(s: string): seq<Param> {
    if s == "" then [] else PairsOf(Split(s[1..], '&'))
  }

  /** Escaped text holds none of the characters that divide a URL. */
  lemma EscapedPlain(s: string)
    requires AllEscaped(s)
    ensures '=' !in s && '&' !in s && '?' !in s && '#' !in s && '+' !in s && '/' !in s && NoSpace(s)
  {
    forall x | x in s
      ensures x != '=' && x != '&' && x != '?' && x != '#' && x != '+' && x != '/' && !IsSpace(x)
    {
      assert IsEscaped(x);
    }
  }

  /** The characters of a printed query entry. */
  predicate PairChar(x: char) {
    x == '=' || IsEscaped(x)
  }

  lemma PairRoundTrip(p: Param)
    ensures PairOf(PairText(p)) == p && PairText(p) != ""
    ensures forall x :: x in PairText(p) ==> PairChar(x)
  {
    var k, v := Encode(p.key), Encode(p.value);
    EncodeEscaped(p.key);
    EncodeEscaped(p.value);
    EscapedPlain(k);
    EscapedPlain(v);
    IndexOfPrefix(k, '=', v);
    var text := k + ['='] + v;
    assert text == PairText(p) && text[..|k|] == k && text[|k| + 1..] == v;
    ReplacePlusIdentity(k);
    ReplacePlusIdentity(v);
    DecodeEncode(p.key);
    DecodeEncode(p.value);
  }

  lemma {:induction false} PairsRoundTrip(ps: seq<Param>)
    ensures PairsOf(PairTexts(ps)) == ps
    ensures forall t, x :: t in PairTexts(ps) && x in t ==> PairChar(x)
  {
    if ps != [] {
      PairRoundTrip(ps[0]);
      PairsRoundTrip(ps[1..]);
      var texts := PairTexts(ps);
      assert texts[0] == PairText(ps[0]) && texts[1..] == PairTexts(ps[1..]);
      assert [ps[0]] + ps[1..] == ps;
    }
  }

  lemma PlainPairChar(x: char)
    requires PairChar(x)
    ensures x != '&' && x != '#' && !IsSpace(x)
  {}

  lemma PlainTexts(ps: seq<Param>, t: string)
    requires t in PairTexts(ps)
    ensures '&' !in t && '#' !in t && NoSpace(t)
  {
    PairsRoundTrip(ps);
    forall x | x in t
      ensures x != '&' && x != '#' && !IsSpace(x)
    {
      PlainPairChar(x);
    }
  }

  /** A query divides nothing but its own entries. */
  lemma QueryChars(ps: seq<Param>)
    requires ps != []
    ensures Search(ps) != "" && Search(ps)[0] == '?' && '#' !in Search(ps) && NoSpace(Search(ps))
  {
    var texts := PairTexts(ps);
    JoinChars(texts, '&');
    forall x | x in Join(texts, '&')
      ensures x != '#' && !IsSpace(x)
    {
      if x != '&' {
        var t :| t in texts && x in t;
        PlainTexts(ps, t);
      }
    }
  }

  /** A printed query reads back as its entries. */
  lemma QueryRoundTrip(ps: seq<Param>)
    requires ps != []
    ensures Query(Search(ps)) == ps
  {
    var texts := PairTexts(ps);
    PairsRoundTrip(ps);
    forall t | t in texts
      ensures '&' !in t
    {
      PlainTexts(ps, t);
    }
    SplitJoin(texts, '&');
    SearchTail(ps);
  }

  lemma SearchTail(ps: seq<Param>)
    requires ps != []
    ensures Search(ps) != "" && Search(ps)[1..] == Join(PairTexts(ps), '&')
  {}

  // ---------------------------------------------------------------- the three parts of a URL text

  /** What stands before the query, the query entries, and the fragment. */
  datatype Parts = Parts(main: string, params: seq<Param>, hash: string)

  function PartsOf(s: string): Parts {
    var front := Before(s, '#');
    Parts(Before(front, '?'), Query(From(front, '?')), From(s, '#'))
  }

  lemma PartsRoundTrip(main: string, ps: seq<Param>, hash: string)
    requires '?' !in main && '#' !in main && ps != [] && (hash != "" ==> hash[0] == '#')
    ensures PartsOf(main + Search(ps) + hash) == Parts(main, ps, hash)
  {
    QueryRoundTrip(ps);
    QueryChars(ps);
    CutAt(main + Search(ps), hash, '#');
    CutAt(main, Search(ps), '?');
  }

  lemma PartsHold(s: string)
    ensures var p := PartsOf(s);
            && '?' !in p.main && '#' !in p.main && (p.hash != "" ==> p.hash[0] == '#')
            && (forall x :: x in p.main || x in p.hash ==> x in s)
            && |p.main| <= |s| && s[..|p.main|] == p.main
  {
    CutHolds(s, '#');
    CutHolds(Before(s, '#'), '?');
  }

  // ---------------------------------------------------------------- paths and authorities

  /** Leading dot segments vanish. */
  function Normal(path: string): (r: string)
    ensures |r| <= |path|
    decreases |path|
  {
    if StartsAs(path, "/./") then Normal(path[2..]) else path
  }

  lemma {:induction false} NormalHolds(path: string)
    ensures Normal(Normal(path)) == Normal(path)
    ensures forall x :: x in Normal(path) ==> x in path
    ensures path != "" && path[0] == '/' ==> Normal(path) != "" && Normal(path)[0] == '/'
    decreases |path|
  {
    if StartsAs(path, "/./") {
      assert path[2..][0] == path[..3][2];
      NormalHolds(path[2..]);
    }
  }

  /** The path after an authority; none is the root. */
  function PathAfter(rest: string): string {
    if From(rest, '/') == "" then "/" else Normal(From(rest, '/'))
  }

  lemma PathAfterHolds(rest: string)
    ensures var path := PathAfter(rest);
            && path != "" && path[0] == '/' && (forall x :: x in path ==> x == '/' || x in rest)
            && (Before(rest, '/') != "" ==> |path| <= |rest|)
  {
    CutHolds(rest, '/');
    NormalHolds(From(rest, '/'));
  }

  /** After two slashes a host is named. */
  predicate Authority(path: string) {
    |path| >= 2 && Before(path[2..], '/') != ""
  }

  function ParseRelative(s: string): Option<Url> {
    var p := PartsOf(s);
    if p.main == "" || p.main[0] != '/' then None
    else if !StartsAs(p.main, "//") then Some(Url(PLACEHOLDER, Normal(p.main), p.params, p.hash))
    else if !Authority(p.main) then None
    else Some(Url("http://" + Before(p.main[2..], '/'), PathAfter(p.main[2..]), p.params, p.hash))
  }

  /** What every relative URL read gives: a path that neither divides nor holds white space. */
  lemma ParsedRelative(s: string)
    requires ParseRelative(s).Some?
    ensures var u := ParseRelative(s).value;
            && u.path != "" && u.path[0] == '/' && '?' !in u.path && '#' !in u.path && Normal(u.path) == u.path
            && (u.hash != "" ==> u.hash[0] == '#')
            && (NoSpace(s) ==> NoSpace(u.path) && NoSpace(u.hash))
  {
    var p := PartsOf(s);
    PartsHold(s);
    NormalHolds(p.main);
    if StartsAs(p.main, "//") {
      var rest := p.main[2..];
      assert forall x :: x in rest ==> x in p.main;
      PathAfterHolds(rest);
      CutHolds(rest, '/');
      NormalHolds(From(rest, '/'));
      assert forall x :: x in PathAfter(rest) ==> x == '/' || x in p.main;
    }
  }

  /** Printing a path, a query and a fragment and reading them again. */
  lemma ReadAgain(path: string, ps: seq<Param>, hash: string)
    requires path != "" && path[0] == '/' && '?' !in path && '#' !in path && ps != [] && (hash != "" ==> hash[0] == '#')
    ensures ParseRelative(path + Search(ps) + hash) ==
              if !StartsAs(path, "//") then Some(Url(PLACEHOLDER, Normal(path), ps, hash))
              else if !Authority(path) then None
              else Some(Url("http://" + Before(path[2..], '/'), PathAfter(path[2..]), ps, hash))
  {
    PartsRoundTrip(path, ps, hash);
  }

  lemma RelativeForm(path: string, ps: seq<Param>, hash: string)
    requires path != "" && path[0] == '/' && ps != [] && NoSpace(path) && NoSpace(hash)
    ensures IsRelativeUrlWithQuery(path + Search(ps) + hash)
  {
    QueryChars(ps);
    var s := path + Search(ps) + hash;
    assert s[0] == '/' && s[|path|] == '?';
    forall x | x in s
      ensures !IsSpace(x)
    {
      assert x in path || x in Search(ps) || x in hash;
    }
  }

  lemma ShorterPath(path: string)
    requires StartsAs(path, "//") && Authority(path) && '?' !in path
    ensures |PathAfter(path[2..])| < |path| && '?' !in PathAfter(path[2..])
  {
    PathAfterHolds(path[2..]);
    assert forall x :: x in path[2..] ==> x in path;
  }

  // ---------------------------------------------------------------- absolute URLs

  /** The length of a scheme's rest, with its "://". */
  function SchemeLength(s: string): (n: nat)
    requires SchemeThenSlashes(s)
    ensures n <= |s|
  {
    if StartsAs(s, "://") then 3 else 1 + SchemeLength(s[1..])
  }

  lemma {:induction false} SameScheme(s: string, tail: string)
    requires SchemeThenSlashes(s)
    ensures var again := s[..SchemeLength(s)] + tail;
            SchemeThenSlashes(again) && SchemeLength(again) == SchemeLength(s)
  {
    var n := SchemeLength(s);
    var again := s[..n] + tail;
    if StartsAs(s, "://") {
      assert again[..3] == s[..3];
    } else {
      SameScheme(s[1..], tail);
      assert again[1..] == s[1..][..n - 1] + tail && again[0] == s[0];
      assert |again| >= 3 ==> again[..3][0] == s[0];
    }
  }

  function RootLength(main: string): (n: nat)
    requires IsAbsoluteUrl(main)
    ensures n <= |main|
  {
    1 + SchemeLength(main[1..])
  }

  lemma SameRoot(main: string, tail: string)
    requires IsAbsoluteUrl(main)
    ensures var again := main[..RootLength(main)] + tail;
            && IsAbsoluteUrl(again) && RootLength(again) == RootLength(main)
            && again[..RootLength(main)] == main[..RootLength(main)] && again[RootLength(main)..] == tail
  {
    var n := RootLength(main);
    SameScheme(main[1..], tail);
    var again := main[..n] + tail;
    assert again[1..] == main[1..][..n - 1] + tail && again[0] == main[0];
  }

  /** Scheme, "://" and host. */
  function OriginOf(main: string): string
    requires IsAbsoluteUrl(main)
  {
    main[..RootLength(main)] + Before(main[RootLength(main)..], '/')
  }

  /** What follows the host; nothing there is the root. */
  function PathOf(main: string): string
    requires IsAbsoluteUrl(main)
  {
    var path := From(main[RootLength(main)..], '/');
    if path == "" then "/" else path
  }

  function ParseAbsolute(s: string): Option<Url> {
    var p := PartsOf(s);
    if IsAbsoluteUrl(p.main) then Some(Url(OriginOf(p.main), PathOf(p.main), p.params, p.hash)) else None
  }

  function Href(u: Url): string {
    u.origin + u.path + Search(u.params) + u.hash
  }

  /** An absolute text cut into origin and path is put together the same way again. */
  lemma OriginAndPath(main: string)
    requires IsAbsoluteUrl(main)
    ensures var again := OriginOf(main) + PathOf(main);
            && IsAbsoluteUrl(again) && OriginOf(again) == OriginOf(main) && PathOf(again) == PathOf(main)
  {
    var n := RootLength(main);
    var host, path := Before(main[n..], '/'), PathOf(main);
    CutHolds(main[n..], '/');
    CutAt(host, path, '/');
    SameRoot(main, host + path);
    Regroup(main[..n], host, path);
  }

  lemma OriginAndPathChars(main: string, x: char)
    requires IsAbsoluteUrl(main) && x !in main && x != '/'
    ensures x !in OriginOf(main) + PathOf(main)
  {
    var n := RootLength(main);
    CutHolds(main[n..], '/');
    assert x !in main[..n] && x !in main[n..];
  }

  /** A longer text is absolute too. */
  lemma AbsoluteLonger(main: string, tail: string)
    requires IsAbsoluteUrl(main)
    ensures IsAbsoluteUrl(main + tail)
  {
    var n := RootLength(main);
    SameRoot(main, main[n..] + tail);
    Regroup(main[..n], main[n..], tail);
    assert main[..n] + main[n..] == main;
  }

  /** An absolute URL printed with a new query reads back as itself. */
  lemma AbsoluteAgain(s: string, ps: seq<Param>)
    requires ParseAbsolute(s).Some? && ps != []
    ensures var u := ParseAbsolute(s).value.(params := ps);
            IsAbsoluteUrl(Href(u)) && ParseAbsolute(Href(u)) == Some(u)
  {
    var p := PartsOf(s);
    PartsHold(s);
    OriginAndPath(p.main);
    OriginAndPathChars(p.main, '?');
    OriginAndPathChars(p.main, '#');
    var again := OriginOf(p.main) + PathOf(p.main);
    PartsRoundTrip(again, ps, p.hash);
    AbsoluteLonger(again, Search(ps));
    AbsoluteLonger(again + Search(ps), p.hash);
  }
}
