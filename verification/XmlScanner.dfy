/** The tag pattern of the XML analysis: which tags it finds in a text, and when they are the document's own. */
module XmlScanner {
  import opened Wrappers
  import opened Text
  import Order
  import opened XmlStructure

  // ---------------------------------------------------------------- the pattern

  predicate NameStart(c: char) {
    IsLetter(c) || c == '_'
  }

  predicate NameChar(c: char) {
    IsLetter(c) || IsDigit(c) || c in "_.:-"
  }

  function NameLength(s: string): (n: nat)
    ensures n <= |s|
  {
    if s == "" || !NameChar(s[0]) then 0 else 1 + NameLength(s[1..])
  }

  datatype Match = Match(tag: Tag, rest: string)

  predicate EndsWithSlash(s: string) {
    s != "" && s[|s| - 1] == '/'
  }

  /** The pattern at the start of a text: a slash or none, a name, and anything up to the first '>', with the character before
      that one telling whether the tag closes itself. */
  function TagAt(s: string): (m: Option<Match>)
    ensures m.Some? ==> |m.value.rest| < |s|
  {
    if s == "" || s[0] != '<' then None
    else
      var closing := |s| > 1 && s[1] == '/';
      var body := if closing then s[2..] else s[1..];
      var end := IndexOf(body, '>');
      if body == "" || !NameStart(body[0]) || end == -1 then None
      else
        var name := body[..NameLength(body)];
        Some(Match(if closing then Close(name) else Open(name, EndsWithSlash(body[..end])), body[end + 1..]))
  }

  function NextTag(s: string): (m: Option<Match>)
    ensures m.Some? ==> |m.value.rest| < |s|
    decreases |s|
  {
    if s == "" then None else if TagAt(s).Some? then TagAt(s) else NextTag(s[1..])
  }

  /** The tags found one after the other. */
  function Scan(s: string): seq<Tag>
    decreases |s|
  {
    match NextTag(s)
    case None => []
    case Some(m) => [m.tag] + Scan(m.rest)
  }

  /** The loop over the pattern's matches, then the record choice. */
  method AnalyzeXmlStructure(isError: NameTest, text: string) returns (r: Analysis)
    ensures r == Analyze(isError, Feed(isError, START, Scan(text)))
  {
    var w, found := START, NextTag(text);
    while found.Some?
      invariant ThreeLevels(w)
      invariant Feed(isError, w, if found.Some? then [found.value.tag] + Scan(found.value.rest) else [])
                == Feed(isError, START, Scan(text))
      decreases if found.Some? then 1 + |found.value.rest| else 0
    {
      var m := found.value;
      assert ([m.tag] + Scan(m.rest))[1..] == Scan(m.rest);
      w := Feed1(isError, w, m.tag);
      found := NextTag(m.rest);
    }
    var records := RecordCountAt(isError, w.counts[0], w.nonLeaf[0]);
    if SingleWrapper(w) {
      var nested := RecordCountAt(isError, w.counts[1], w.nonLeaf[1]);
      BestCovers(isError, w.counts[1], w.nonLeaf[1], NO_RECORDS);
      records := if nested.count >= 1 then nested else NO_RECORDS;
    }
    r := Analysis(w.root, records, w.errorSignal && records.count == 0);
  }

  // ---------------------------------------------------------------- documents as text

  /** A tag with what stands in it behind the name, or character data. */
  datatype Piece = Markup(tag: Tag, inner: string) | Chars(text: string)

  /** The names the pattern knows. XML has more: they may hold letters of any script and begin with a colon. */
  predicate IsName(name: string) {
    name != "" && NameStart(name[0]) && forall c :: c in name ==> NameChar(c)
  }

  predicate Writable(name: string) {
    name != "" && '<' !in name && '>' !in name && '/' !in name
  }

  /** Neither attributes nor character data hold a '<', but both may hold a '>'. */
  predicate Written(p: Piece) {
    match p
    case Markup(tag, inner) => Writable(tag.name) && '<' !in inner && (inner == "" || !NameChar(inner[0]))
    case Chars(text) => '<' !in text
  }

  /** All that follows the name inside the tag. */
  function Inside(p: Piece): string
    requires p.Markup?
  {
    if p.tag.Open? && p.tag.selfClosing then p.inner + ['/'] else p.inner
  }

  function TextOf(p: Piece): string {
    match p
    case Markup(tag, _) => (if tag.Open? then ['<'] else ['<', '/']) + (tag.name + Inside(p) + ['>'])
    case Chars(text) => text
  }

  function Render(ps: seq<Piece>): string {
    if ps == [] then "" else TextOf(ps[0]) + Render(ps[1..])
  }

  function Tags(ps: seq<Piece>): seq<Tag> {
    if ps == [] then [] else (if ps[0].Markup? then [ps[0].tag] else []) + Tags(ps[1..])
  }

  function UpTo(s: string): string {
    var i := IndexOf(s, '>');
    if i == -1 then s else s[..i]
  }

  function Behind(s: string): string {
    var i := IndexOf(s, '>');
    if i == -1 then "" else s[i + 1..] + ['>']
  }

  /** The part of a name that the pattern takes. */
  function Known(name: string): string {
    name[..NameLength(name)]
  }

  /** A tag as it is read: the part of its name that the pattern knows. It ends at its first '>', wherever that stands. */
  function ReadTag(p: Piece): Tag
    requires p.Markup?
  {
    match p.tag
    case Close(name) => Close(Known(name))
    case Open(name, _) => Open(Known(name), EndsWithSlash(UpTo(Inside(p))))
  }

  /** Nothing is read of character data and of a tag whose name the pattern cannot begin. */
  function Read(p: Piece): seq<Tag>
    requires Written(p)
  {
    if p.Chars? || !NameStart(p.tag.name[0]) then [] else [ReadTag(p)]
  }

  predicate AllWritten(ps: seq<Piece>) {
    forall p :: p in ps ==> Written(p)
  }

  function TagsRead(ps: seq<Piece>): seq<Tag>
    requires AllWritten(ps)
  {
    if ps == [] then [] else Read(ps[0]) + TagsRead(ps[1..])
  }

  // ---------------------------------------------------------------- what the scanner finds

  lemma {:induction false} NameEnds(name: string, tail: string)
    requires forall c :: c in name ==> NameChar(c)
    requires tail != "" && !NameChar(tail[0])
    ensures NameLength(name + tail) == |name|
  {
    if name == "" {
      assert name + tail == tail;
    } else {
      NameEnds(name[1..], tail);
      assert (name + tail)[1..] == name[1..] + tail && (name + tail)[0] == name[0];
    }
  }

  lemma BodyEnd(head: string, after: string)
    requires '>' !in head
    ensures var body := head + ['>'] + after;
            IndexOf(body, '>') == |head| && body[..|head|] == head && body[|head| + 1..] == after
  {
    IndexOfPrefix(head, '>', after);
  }

  lemma BodyName(name: string, tail: string)
    requires IsName(name) && tail != "" && !NameChar(tail[0])
    ensures var body := name + tail;
            NameLength(body) == |name| && body[..|name|] == name && body[0] == name[0]
  {
    NameEnds(name, tail);
  }

  /** A tag's body up to its first '>', and what the pattern makes of it. */
  lemma ReadsBody(name: string, cut: string, after: string)
    requires IsName(name) && '>' !in cut && (cut == "" || !NameChar(cut[0]))
    ensures var body := name + cut + ['>'] + after;
            && IndexOf(body, '>') == |name + cut| && NameLength(body) == |name| && body[..|name|] == name
            && body[..|name + cut|] == name + cut && body[|name + cut| + 1..] == after && body[0] == name[0]
  {
    BodyEnd(name + cut, after);
    BodyName(name, cut + (['>'] + after));
    Regroup(name + cut, ['>'], after);
    Regroup(name, cut, ['>'] + after);
  }

  lemma SlashOfBody(name: string, cut: string)
    requires IsName(name)
    ensures EndsWithSlash(name + cut) <==> EndsWithSlash(cut)
  {
    if cut == "" {
      assert name + cut == name;
      assert NameChar(name[|name| - 1]);
    }
  }

  lemma ReadsOpen(name: string, cut: string, after: string)
    requires IsName(name) && '>' !in cut && (cut == "" || !NameChar(cut[0]))
    ensures TagAt(['<'] + (name + cut + ['>'] + after)) == Some(Match(Open(name, EndsWithSlash(cut)), after))
  {
    ReadsBody(name, cut, after);
    SlashOfBody(name, cut);
    OpenBody(name + cut + ['>'] + after, |name + cut|);
  }

  /** The pattern at a '<' that no slash follows. */
  lemma OpenBody(body: string, end: nat)
    requires body != "" && NameStart(body[0]) && IndexOf(body, '>') == end
    ensures TagAt(['<'] + body) == Some(Match(Open(body[..NameLength(body)], EndsWithSlash(body[..end])), body[end + 1..]))
  {
    var s := ['<'] + body;
    assert s[1..] == body && s[1] == body[0];
  }

  lemma ReadsClose(name: string, cut: string, after: string)
    requires IsName(name) && '>' !in cut && (cut == "" || !NameChar(cut[0]))
    ensures TagAt(['<', '/'] + (name + cut + ['>'] + after)) == Some(Match(Close(name), after))
  {
    ReadsBody(name, cut, after);
    CloseBody(name + cut + ['>'] + after, |name + cut|);
  }

  lemma CloseBody(body: string, end: nat)
    requires body != "" && NameStart(body[0]) && IndexOf(body, '>') == end
    ensures TagAt(['<', '/'] + body) == Some(Match(Close(body[..NameLength(body)]), body[end + 1..]))
  {
    var s := ['<', '/'] + body;
    assert s[2..] == body && s[1] == '/';
  }

  /** Text without a '<' is passed over. */
  lemma {:induction false} SkipText(s: string, rest: string)
    requires '<' !in s
    ensures NextTag(s + rest) == NextTag(rest)
    decreases |s|
  {
    if s == "" {
      assert s + rest == rest;
    } else {
      SkipText(s[1..], rest);
      Order.TailConcat(s, rest);
    }
  }

  /** The inside of a tag in two parts: up to its first '>', and the rest of it behind. */
  lemma CutInside(inside: string)
    requires '<' !in inside
    ensures inside + ['>'] == UpTo(inside) + ['>'] + Behind(inside)
    ensures '>' !in UpTo(inside) && '<' !in Behind(inside)
    ensures UpTo(inside) != "" ==> UpTo(inside)[0] == inside[0]
  {
    var i := IndexOf(inside, '>');
    if i >= 0 {
      assert inside == inside[..i] + ['>'] + inside[i + 1..];
      Regroup(inside[..i] + ['>'], inside[i + 1..], ['>']);
    }
  }

  lemma Regrouped(mark: string, name: string, inside: string, rest: string)
    requires '<' !in inside
    ensures mark + (name + inside + ['>']) + rest == mark + (name + UpTo(inside) + ['>'] + (Behind(inside) + rest))
  {
    var cut, behind := UpTo(inside), Behind(inside);
    CutInside(inside);
    Regroup(mark, name + inside + ['>'], rest);
    Regroup(name, inside, ['>']);
    Regroup(name, cut + ['>'], behind);
    Regroup(name, cut, ['>']);
    Regroup(name + cut + ['>'], behind, rest);
  }

  /** What is in a tag cannot be taken for a part of its name. */
  lemma InsideBegins(p: Piece)
    requires p.Markup? && Written(p)
    ensures '<' !in Inside(p) && (UpTo(Inside(p)) == "" || !NameChar(UpTo(Inside(p))[0]))
  {
    CutInside(Inside(p));
    assert Inside(p) == "" || Inside(p)[0] == '/' || Inside(p)[0] == p.inner[0];
  }

  lemma {:induction false} KnownHolds(name: string)
    ensures forall c :: c in Known(name) ==> NameChar(c)
    ensures NameLength(name) < |name| ==> !NameChar(name[NameLength(name)])
    ensures Known(name) == name <==> forall c :: c in name ==> NameChar(c)
  {
    if name != "" && NameChar(name[0]) {
      KnownHolds(name[1..]);
      assert Known(name) == [name[0]] + Known(name[1..]);
      assert name == [name[0]] + name[1..];
    }
  }

  lemma KnownPart(name: string)
    requires Writable(name) && NameStart(name[0])
    ensures var foreign := name[NameLength(name)..];
            && IsName(Known(name)) && name == Known(name) + foreign
            && (foreign == "" || !NameChar(foreign[0])) && '>' !in foreign && '/' !in foreign
  {
    KnownHolds(name);
    assert Known(name) != "" && Known(name)[0] == name[0];
    assert forall x :: x in name[NameLength(name)..] ==> x in name;
  }

  lemma SlashBehind(foreign: string, cut: string)
    requires '/' !in foreign
    ensures EndsWithSlash(foreign + cut) <==> EndsWithSlash(cut)
  {
    if cut == "" {
      assert foreign + cut == foreign;
      assert foreign != "" ==> foreign[|foreign| - 1] in foreign;
    }
  }

  /** The rest of a name, if any, stands to the pattern as what follows the name. */
  lemma ForeignPart(name: string, cut: string)
    requires Writable(name) && NameStart(name[0]) && '>' !in cut && (cut == "" || !NameChar(cut[0]))
    ensures var known, foreign := Known(name), name[NameLength(name)..];
            && IsName(known) && '>' !in foreign + cut && name + cut == known + (foreign + cut)
            && (foreign + cut == "" || !NameChar((foreign + cut)[0]))
            && (EndsWithSlash(foreign + cut) <==> EndsWithSlash(cut))
  {
    KnownPart(name);
    SlashBehind(name[NameLength(name)..], cut);
    Regroup(Known(name), name[NameLength(name)..], cut);
  }

  /** The text of a tag, cut where the pattern cuts it. */
  lemma TextCut(mark: string, name: string, inside: string, rest: string)
    requires Writable(name) && NameStart(name[0]) && '<' !in inside && (UpTo(inside) == "" || !NameChar(UpTo(inside)[0]))
    ensures var foreign := name[NameLength(name)..];
            mark + (name + inside + ['>']) + rest ==
              mark + (Known(name) + (foreign + UpTo(inside)) + ['>'] + (Behind(inside) + rest))
  {
    CutInside(inside);
    Regrouped(mark, name, inside, rest);
    ForeignPart(name, UpTo(inside));
  }

  lemma OpenFound(p: Piece, rest: string)
    requires p.Markup? && Written(p) && NameStart(p.tag.name[0]) && p.tag.Open?
    ensures TagAt(TextOf(p) + rest) == Some(Match(ReadTag(p), Behind(Inside(p)) + rest))
  {
    var name, cut, after := p.tag.name, UpTo(Inside(p)), Behind(Inside(p)) + rest;
    InsideBegins(p);
    CutInside(Inside(p));
    ForeignPart(name, cut);
    TextCut(['<'], name, Inside(p), rest);
    ReadsOpen(Known(name), name[NameLength(name)..] + cut, after);
  }

  lemma CloseFound(p: Piece, rest: string)
    requires p.Markup? && Written(p) && NameStart(p.tag.name[0]) && p.tag.Close?
    ensures TagAt(TextOf(p) + rest) == Some(Match(ReadTag(p), Behind(Inside(p)) + rest))
  {
    var name, cut, after := p.tag.name, UpTo(Inside(p)), Behind(Inside(p)) + rest;
    InsideBegins(p);
    CutInside(Inside(p));
    ForeignPart(name, cut);
    TextCut(['<', '/'], name, Inside(p), rest);
    ReadsClose(Known(name), name[NameLength(name)..] + cut, after);
  }

  lemma MarkSkipped(body: string, rest: string)
    requires body != "" && body[0] != '/' && !NameStart(body[0]) && '<' !in body
    ensures NextTag(['<'] + body + rest) == NextTag(rest)
  {
    var s := ['<'] + body + rest;
    assert s[1..] == body + rest && s[1] == body[0];
    SkipText(body, rest);
  }

  lemma EndMarkSkipped(body: string, rest: string)
    requires body != "" && !NameStart(body[0]) && '<' !in body
    ensures NextTag(['<', '/'] + body + rest) == NextTag(rest)
  {
    var s, slashed := ['<', '/'] + body + rest, ['/'] + body;
    assert s[1..] == slashed + rest && s[2..] == body + rest && s[2] == body[0];
    SkipText(slashed, rest);
  }

  /** A tag whose name the pattern cannot begin is passed over as a whole. */
  lemma ForeignSkipped(p: Piece, rest: string)
    requires p.Markup? && Written(p) && !NameStart(p.tag.name[0])
    ensures NextTag(TextOf(p) + rest) == NextTag(rest)
  {
    var body := p.tag.name + Inside(p) + ['>'];
    InsideBegins(p);
    assert body[0] == p.tag.name[0] && body[0] in p.tag.name;
    if p.tag.Open? {
      MarkSkipped(body, rest);
    } else {
      EndMarkSkipped(body, rest);
    }
  }

  lemma ScanFound(s: string, m: Match)
    requires TagAt(s) == Some(m)
    ensures Scan(s) == [m.tag] + Scan(m.rest)
  {}

  lemma SkipScan(s: string, rest: string)
    requires '<' !in s
    ensures Scan(s + rest) == Scan(rest)
  {
    SkipText(s, rest);
  }

  lemma SameNext(s: string, t: string)
    requires NextTag(s) == NextTag(t)
    ensures Scan(s) == Scan(t)
  {}

  lemma ScanPiece(p: Piece, rest: string)
    requires Written(p)
    ensures Scan(TextOf(p) + rest) == Read(p) + Scan(rest)
  {
    if p.Chars? {
      SkipScan(p.text, rest);
    } else if NameStart(p.tag.name[0]) {
      var behind := Behind(Inside(p));
      if p.tag.Open? { OpenFound(p, rest); } else { CloseFound(p, rest); }
      ScanFound(TextOf(p) + rest, Match(ReadTag(p), behind + rest));
      InsideBegins(p);
      CutInside(Inside(p));
      SkipScan(behind, rest);
    } else {
      ForeignSkipped(p, rest);
      SameNext(TextOf(p) + rest, rest);
    }
  }

  /** Every tag whose name the pattern can begin is found, in order, and none besides; each ends at its first '>'. */
  lemma {:induction false} ScanRendered(ps: seq<Piece>)
    requires AllWritten(ps)
    ensures Scan(Render(ps)) == TagsRead(ps)
  {
    if ps != [] {
      ScanRendered(ps[1..]);
      ScanPiece(ps[0], Render(ps[1..]));
    }
  }

  /** The pattern knows the tag's name, and up to its first '>' the tag ends in a slash exactly if it closes itself. */
  predicate ReadTruly(p: Piece) {
    p.Markup? ==> IsName(p.tag.name) && (p.tag.Open? ==> (EndsWithSlash(UpTo(Inside(p))) <==> p.tag.selfClosing))
  }

  predicate AllReadTruly(ps: seq<Piece>) {
    ps == [] || (ReadTruly(ps[0]) && AllReadTruly(ps[1..]))
  }

  lemma {:induction false} AllTruly(ps: seq<Piece>)
    ensures AllReadTruly(ps) <==> forall p :: p in ps ==> ReadTruly(p)
  {
    if ps != [] {
      AllTruly(ps[1..]);
      assert forall x :: x in ps <==> x == ps[0] || x in ps[1..];
    }
  }

  lemma ReadTrulyMeans(p: Piece)
    requires p.Markup? && Written(p)
    ensures Read(p) == [p.tag] <==> ReadTruly(p)
    ensures Read(p) == [] || |Read(p)| == 1
  {
    KnownHolds(p.tag.name);
  }

  lemma {:induction false} FewerTagsRead(ps: seq<Piece>)
    requires AllWritten(ps)
    ensures |TagsRead(ps)| <= |Tags(ps)|
  {
    if ps != [] {
      FewerTagsRead(ps[1..]);
    }
  }

  lemma HeadRead(p: Piece, read: seq<Tag>, own: seq<Tag>)
    requires p.Markup? && Written(p) && |read| <= |own|
    ensures Read(p) + read == [p.tag] + own <==> ReadTruly(p) && read == own
  {
    ReadTrulyMeans(p);
    Order.ConsEqual(ReadTag(p), read, p.tag, own);
  }

  lemma {:induction false} TrulyReadTags(ps: seq<Piece>)
    requires AllWritten(ps)
    ensures TagsRead(ps) == Tags(ps) <==> AllReadTruly(ps)
  {
    if ps != [] {
      TrulyReadTags(ps[1..]);
      if ps[0].Chars? {
        assert TagsRead(ps) == TagsRead(ps[1..]) && Tags(ps) == Tags(ps[1..]);
      } else {
        FewerTagsRead(ps[1..]);
        HeadRead(ps[0], TagsRead(ps[1..]), Tags(ps[1..]));
      }
    }
  }

  /** The scanner reads a document's tags as they are exactly when the pattern knows all their names and no tag is cut short at
      a misleading place. */
  lemma ScannedExactly(ps: seq<Piece>)
    requires AllWritten(ps)
    ensures Scan(Render(ps)) == Tags(ps) <==> forall p :: p in ps ==> ReadTruly(p)
  {
    ScanRendered(ps);
    TrulyReadTags(ps);
    AllTruly(ps);
  }

  /** Then the analysis of the text describes the tree it is written for. */
  lemma AnalysisOfDocument(isError: NameTest, e: Element, ps: seq<Piece>)
    requires AllWritten(ps) && Tags(ps) == Stream(e)
    requires forall p :: p in ps ==> ReadTruly(p)
    ensures Describes(isError, Analyze(isError, Feed(isError, START, Scan(Render(ps)))), e)
  {
    ScannedExactly(ps);
    AnalysisOfTree(isError, e);
  }

  // ---------------------------------------------------------------- documents that are misread

  /** An attribute whose value holds "/>" cuts its tag short there. */
  lemma MisleadingAttribute(inner: string)
    requires inner == " a=\"/>\""
    ensures Misleading(inner)
  {
    var cut, behind := " a=\"/", "\"";
    IndexOfPrefix(cut, '>', behind);
    assert inner == cut + ['>'] + behind;
    assert inner[..5] == cut;
  }

  predicate Misleading(inner: string) {
    '<' !in inner && inner != "" && !NameChar(inner[0]) && '>' in inner && EndsWithSlash(UpTo(inner))
  }

  /** A list with one record `r`, which has a child, and a leaf `y`. */
  function OneRecord(l: string, r: string, x: string, y: string): Element {
    Element(l, [Element(r, [Element(x, [], true)], false), Element(y, [], true)], false)
  }

  lemma OneRecordStream(l: string, r: string, x: string, y: string)
    ensures Stream(OneRecord(l, r, x, y)) ==
              [Open(l, false)] + ([Open(r, false)] + ([Open(x, true)] + ([Close(r)] + ([Open(y, true)] + ([Close(l)] + [])))))
  {
    var rec, leaf := Element(r, [Element(x, [], true)], false), Element(y, [], true);
    var e := OneRecord(l, r, x, y);
    assert rec.children[1..] == [] && e.children[1..] == [leaf] && [leaf][1..] == [];
    assert StreamAll(rec.children) == [Open(x, true)] && StreamAll([leaf]) == [Open(y, true)];
    assert Stream(rec) == [Open(r, false), Open(x, true), Close(r)];
    assert StreamAll(e.children) == Stream(rec) + [Open(y, true)];
  }

  /** A tag in front of a document, with what stands in it. */
  function Tagged(tag: Tag, inner: string, rest: seq<Piece>): seq<Piece> {
    [Markup(tag, inner)] + rest
  }

  lemma TaggedTags(tag: Tag, inner: string, rest: seq<Piece>)
    requires AllWritten(rest) && Written(Markup(tag, inner))
    ensures AllWritten(Tagged(tag, inner, rest))
    ensures Tags(Tagged(tag, inner, rest)) == [tag] + Tags(rest)
    ensures TagsRead(Tagged(tag, inner, rest)) == Read(Markup(tag, inner)) + TagsRead(rest)
  {
    assert Tagged(tag, inner, rest)[1..] == rest;
  }

  /** The text of that list, with attribute text in the record's opening tag. */
  function OneRecordText(l: string, r: string, x: string, y: string, inner: string): seq<Piece> {
    Tagged(Open(l, false), "", Tagged(Open(r, false), inner, AfterRecordTag(l, r, x, y)))
  }

  function AfterRecordTag(l: string, r: string, x: string, y: string): seq<Piece> {
    Tagged(Open(x, true), "", Tagged(Close(r), "", Tagged(Open(y, true), "", Tagged(Close(l), "", []))))
  }

  lemma PlainTag(tag: Tag)
    requires IsName(tag.name)
    ensures Written(Markup(tag, "")) && Read(Markup(tag, "")) == [tag]
  {
    var p := Markup(tag, "");
    assert forall c :: c in tag.name ==> NameChar(c);
    assert '>' !in Inside(p) && UpTo(Inside(p)) == Inside(p);
    ReadTrulyMeans(p);
  }

  /** What follows the record's opening tag, when the record's name is known and when it is not. */
  lemma AfterTags(l: string, r: string, x: string, y: string)
    requires IsName(l) && IsName(x) && IsName(y) && Writable(r) && (IsName(r) || !NameStart(r[0]))
    ensures var ps := AfterRecordTag(l, r, x, y);
            && AllWritten(ps)
            && Tags(ps) == [Open(x, true)] + ([Close(r)] + ([Open(y, true)] + ([Close(l)] + [])))
            && TagsRead(ps) == [Open(x, true)] + ((if IsName(r) then [Close(r)] else []) + ([Open(y, true)] + ([Close(l)] + [])))
  {
    PlainTag(Close(l));
    PlainTag(Open(y, true));
    PlainTag(Open(x, true));
    if IsName(r) { PlainTag(Close(r)); }
    TaggedTags(Close(l), "", []);
    TaggedTags(Open(y, true), "", Tagged(Close(l), "", []));
    TaggedTags(Close(r), "", Tagged(Open(y, true), "", Tagged(Close(l), "", [])));
    TaggedTags(Open(x, true), "", Tagged(Close(r), "", Tagged(Open(y, true), "", Tagged(Close(l), "", []))));
  }

  lemma OneRecordTags(l: string, r: string, x: string, y: string, inner: string)
    requires IsName(l) && IsName(x) && IsName(y) && Writable(r) && (IsName(r) || !NameStart(r[0]))
    requires Written(Markup(Open(r, false), inner))
    ensures var ps := OneRecordText(l, r, x, y, inner);
            && AllWritten(ps) && Tags(ps) == Stream(OneRecord(l, r, x, y))
            && TagsRead(ps) == [Open(l, false)] + (Read(Markup(Open(r, false), inner)) + TagsRead(AfterRecordTag(l, r, x, y)))
  {
    OneRecordStream(l, r, x, y);
    AfterTags(l, r, x, y);
    PlainTag(Open(l, false));
    TaggedTags(Open(r, false), inner, AfterRecordTag(l, r, x, y));
    TaggedTags(Open(l, false), "", Tagged(Open(r, false), inner, AfterRecordTag(l, r, x, y)));
  }

  lemma FeedCons(isError: NameTest, w: Walk, t: Tag, rest: seq<Tag>)
    requires ThreeLevels(w)
    ensures Feed(isError, w, [t] + rest) == Feed(isError, Feed1(isError, w, t), rest)
  {
    assert ([t] + rest)[1..] == rest;
  }

  /** The record, read as self-closing, stays a leaf: its end tag closes the list. */
  lemma MisreadWalk(isError: NameTest, l: string, r: string, x: string, y: string)
    requires r != x
    ensures var rest := [Open(x, true)] + ([Close(r)] + ([Open(y, true)] + ([Close(l)] + [])));
            var w := Feed(isError, START, [Open(l, false)] + ([Open(r, true)] + rest));
            w.counts[0] == [NameCount(r, 1), NameCount(x, 1)] && w.nonLeaf[0] == {}
  {
    var w1 := Feed1(isError, START, Open(l, false));
    var w2 := Feed1(isError, w1, Open(r, true));
    var w3 := Feed1(isError, w2, Open(x, true));
    var w4 := Feed1(isError, w3, Close(r));
    var w5 := Feed1(isError, w4, Open(y, true));
    var w6 := Feed1(isError, w5, Close(l));
    FeedCons(isError, START, Open(l, false),
        [Open(r, true)] + ([Open(x, true)] + ([Close(r)] + ([Open(y, true)] + ([Close(l)] + [])))));
    FeedCons(isError, w1, Open(r, true), [Open(x, true)] + ([Close(r)] + ([Open(y, true)] + ([Close(l)] + []))));
    FeedCons(isError, w2, Open(x, true), [Close(r)] + ([Open(y, true)] + ([Close(l)] + [])));
    FeedCons(isError, w3, Close(r), [Open(y, true)] + ([Close(l)] + []));
    FeedCons(isError, w4, Open(y, true), [Close(l)] + []);
    FeedCons(isError, w5, Close(l), []);
    assert w1.stack == [Frame(l, false)] && w2.stack == [Frame(l, true)] && w2.counts[0] == [NameCount(r, 1)];
    assert [NameCount(r, 1)][1..] == [];
    assert w3.stack == [Frame(l, true)] && w3.counts[0] == [NameCount(r, 1)] + Bump([], x);
    assert w4.stack == [] && w5.stack == [] && w6 == w5;
  }

  lemma {:induction false} NoRecordOfLeaves(isError: NameTest, counts: Counts, best: Records)
    ensures BestOf(isError, counts, {}, best) == best
  {
    if counts != [] {
      NoRecordOfLeaves(isError, counts[1..], best);
    }
  }

  lemma OneRecordCounted(isError: NameTest, l: string, r: string, x: string, y: string)
    requires !isError(r)
    ensures Analyze(isError, Feed(isError, START, Stream(OneRecord(l, r, x, y)))).records.count >= 1
  {
    var e := OneRecord(l, r, x, y);
    AnalysisOfTree(isError, e);
    assert e.children[0] in RecordLevel(e);
    assert RecordName(isError, RecordLevel(e), r);
    OccurrencesPositive(RecordLevel(e), r);
  }

  lemma MisleadingRead(r: string, inner: string)
    requires IsName(r) && Misleading(inner)
    ensures Writable(r) && Written(Markup(Open(r, false), inner)) && Read(Markup(Open(r, false), inner)) == [Open(r, true)]
  {
    assert forall c :: c in r ==> NameChar(c);
    KnownHolds(r);
  }

  /** The text of the list with one record is analysed as holding none. */
  ghost predicate Missed(isError: NameTest, e: Element, ps: seq<Piece>) {
    && AllWritten(ps) && Tags(ps) == Stream(e)
    && Analyze(isError, Feed(isError, START, Stream(e))).records.count >= 1
    && Analyze(isError, Feed(isError, START, Scan(Render(ps)))).records == NO_RECORDS
  }

  /** A list with a record in it, whose text is analysed as holding none: some attribute of the record holds "/>". */
  lemma RecordCanBeMissed(isError: NameTest, l: string, r: string, x: string, y: string, inner: string)
    requires IsName(l) && IsName(r) && IsName(x) && IsName(y) && r != x && !isError(r) && Misleading(inner)
    ensures Missed(isError, OneRecord(l, r, x, y), OneRecordText(l, r, x, y, inner))
  {
    MisleadingRead(r, inner);
    OneRecordTags(l, r, x, y, inner);
    AfterTags(l, r, x, y);
    ScanRendered(OneRecordText(l, r, x, y, inner));
    MisreadWalk(isError, l, r, x, y);
    NoRecordOfLeaves(isError, [NameCount(r, 1), NameCount(x, 1)], NO_RECORDS);
    OneRecordCounted(isError, l, r, x, y);
  }

  /** Without the record's tags the list has two leaves. */
  lemma ForeignWalk(isError: NameTest, l: string, x: string, y: string)
    requires x != y
    ensures var w := Feed(isError, START, [Open(l, false)] + ([Open(x, true)] + ([Open(y, true)] + ([Close(l)] + []))));
            w.counts[0] == [NameCount(x, 1), NameCount(y, 1)] && w.nonLeaf[0] == {}
  {
    var w1 := Feed1(isError, START, Open(l, false));
    var w2 := Feed1(isError, w1, Open(x, true));
    var w3 := Feed1(isError, w2, Open(y, true));
    var w4 := Feed1(isError, w3, Close(l));
    FeedCons(isError, START, Open(l, false), [Open(x, true)] + ([Open(y, true)] + ([Close(l)] + [])));
    FeedCons(isError, w1, Open(x, true), [Open(y, true)] + ([Close(l)] + []));
    FeedCons(isError, w2, Open(y, true), [Close(l)] + []);
    FeedCons(isError, w3, Close(l), []);
    assert w1.stack == [Frame(l, false)] && w2.stack == [Frame(l, true)] && w2.counts[0] == [NameCount(x, 1)];
    assert [NameCount(x, 1)][1..] == [];
    assert w3.stack == [Frame(l, true)] && w3.counts[0] == [NameCount(x, 1)] + Bump([], y);
    assert w4.stack == [];
  }

  lemma ForeignRead(r: string)
    requires Writable(r) && !NameStart(r[0])
    ensures Written(Markup(Open(r, false), "")) && Read(Markup(Open(r, false), "")) == []
  {}

  lemma ForeignTagsRead(l: string, r: string, x: string, y: string)
    requires IsName(l) && IsName(x) && IsName(y) && Writable(r) && !NameStart(r[0])
    ensures var ps := OneRecordText(l, r, x, y, "");
            && AllWritten(ps) && Tags(ps) == Stream(OneRecord(l, r, x, y))
            && TagsRead(ps) == [Open(l, false)] + ([Open(x, true)] + ([Open(y, true)] + ([Close(l)] + [])))
  {
    ForeignRead(r);
    OneRecordTags(l, r, x, y, "");
    AfterTags(l, r, x, y);
    NothingBefore([Open(y, true)] + ([Close(l)] + []));
    NothingBefore([Open(x, true)] + ([Open(y, true)] + ([Close(l)] + [])));
  }

  lemma NothingBefore(tags: seq<Tag>)
    ensures [] + tags == tags
  {}

  /** The same list with no attribute at all: the record's name begins with a character that the pattern does not know. */
  lemma ForeignRecordMissed(isError: NameTest, l: string, r: string, x: string, y: string)
    requires IsName(l) && IsName(x) && IsName(y) && x != y && !isError(r)
    requires Writable(r) && !NameStart(r[0])
    ensures Missed(isError, OneRecord(l, r, x, y), OneRecordText(l, r, x, y, ""))
  {
    ForeignTagsRead(l, r, x, y);
    ScanRendered(OneRecordText(l, r, x, y, ""));
    ForeignWalk(isError, l, x, y);
    NoRecordOfLeaves(isError, [NameCount(x, 1), NameCount(y, 1)], NO_RECORDS);
    OneRecordCounted(isError, l, r, x, y);
  }
}
