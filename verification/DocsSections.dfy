/**
 What ParseDoc promises (internal/docs/parse.go): the sections tile the document, headings and only headings
 start them, breadcrumbs name the enclosing headings, and ids are distinct.
 */
module DocsSections {
  import opened Wrappers
  import opened Anchors
  import opened DocsParse
  import opened Strings

  ghost function DocOf(t: Text, path: string, content: string): (d: Doc)
    ensures d.Valid()
  {
    var lines := DocLines(content);
    Doc(path, TitleOf(t, path, lines), lines, FrontMatter(lines))
  }

  ghost function Parsed(t: Text, path: string, content: string): seq<Section>
  {
    Sections(t, DocOf(t, path, content))
  }

  method ParseDoc(t: Text, path: string, content: string) returns (sections: seq<Section>)
    requires |DocLines(content)| < MAX_INT
    ensures sections == Parsed(t, path, content)
  {
    var lines := DocLines(content);
    var start, _ := SplitFrontMatter(t, lines);
    var title := DocTitle(t, path, lines);
    sections := ParseLines(t, Doc(path, title, lines, start));
  }

  // ---------- Which lines each section holds ----------

  /** The line of the k-th heading of hs, or end when there is none. */
  function Until(hs: seq<Heading>, k: nat, end: nat): nat {
    if k < |hs| then hs[k].line else end
  }

  /** How many sections the lines before the first heading make: none when they are blank, else one. */
  function Preambles(d: Doc, hs: seq<Heading>, end: nat): (n: nat)
    requires d.start <= Until(hs, 0, end) <= |d.lines|
    ensures n <= 1
  {
    if Blank(d.Body(d.start, Until(hs, 0, end))) then 0 else 1
  }

  lemma CurrentStart(t: Text, d: Doc, hs: seq<Heading>)
    ensures Current(t, d, hs).bodyStart == if hs == [] then d.start else hs[|hs| - 1].line
  {
  }

  /** The k-th section: the preamble, when it is not blank, and then one for each heading, each up to the next. */
  lemma {:induction false} CutAt(t: Text, d: Doc, hs: seq<Heading>, end: nat, k: nat)
    requires Ordered(hs, d.start, end) && end <= |d.lines| && k < |Cut(t, d, hs, end)|
    ensures d.start <= Until(hs, 0, end) <= |d.lines| && 0 <= k + 1 - Preambles(d, hs, end) <= |hs|
    ensures var h := k + 1 - Preambles(d, hs, end);
            && Current(t, d, hs[..h]).bodyStart <= Until(hs, h, end) <= |d.lines|
            && Cut(t, d, hs, end)[k] == Closing(d, Current(t, d, hs[..h]), Until(hs, h, end))
    decreases |hs|
  {
    hide Current, Closing, Preambles;
    CutCount(t, d, hs, end);
    CurrentStart(t, d, hs);
    assert hs[..|hs|] == hs;
    if hs != [] && k < |Cut(t, d, hs, end)| - 1 {
      var last := hs[|hs| - 1].line;
      CutCount(t, d, hs[..|hs| - 1], last);
      CutAt(t, d, hs[..|hs| - 1], last, k);
      SamePreamble(d, hs, end);
      SameUntil(hs, k + 1 - Preambles(d, hs, end), end);
    }
  }

  lemma SameUntil(hs: seq<Heading>, h: nat, end: nat)
    requires h < |hs|
    ensures hs[..|hs| - 1][..h] == hs[..h] && Until(hs[..|hs| - 1], h, hs[|hs| - 1].line) == Until(hs, h, end)
  {
  }

  lemma SamePreamble(d: Doc, hs: seq<Heading>, end: nat)
    requires hs != [] && d.start <= Until(hs, 0, end) <= |d.lines|
    ensures Preambles(d, hs[..|hs| - 1], hs[|hs| - 1].line) == Preambles(d, hs, end)
  {
    assert Until(hs[..|hs| - 1], 0, hs[|hs| - 1].line) == Until(hs, 0, end);
  }

  lemma {:induction false} CutCount(t: Text, d: Doc, hs: seq<Heading>, end: nat)
    requires Ordered(hs, d.start, end) && end <= |d.lines|
    ensures d.start <= Until(hs, 0, end) <= |d.lines|
    ensures |Cut(t, d, hs, end)| == Preambles(d, hs, end) + |hs|
    decreases |hs|
  {
    hide Current, Closing;
    OrderedWithin(hs, d.start, end, 0);
    if hs != [] {
      CutCount(t, d, hs[..|hs| - 1], hs[|hs| - 1].line);
      SamePreamble(d, hs, end);
    }
  }

  /** A section is about the lines from lineStart to lineEnd, counted from 1. */
  ghost predicate Holds(d: Doc, s: Section) {
    && d.start < s.lineStart <= s.lineEnd <= |d.lines|
    && s.body == d.Body(s.lineStart - 1, s.lineEnd)
    && s.docPath == d.path && s.topic == TopicOf(d.path) && s.title == d.title
  }

  /** The sections cover the lines from first on, in order and without overlap. */
  ghost predicate Tiling(d: Doc, ss: seq<Section>, first: nat) {
    && (forall k | 0 <= k < |ss| :: Holds(d, ss[k]))
    && (forall k | 0 < k < |ss| :: ss[k].lineStart == ss[k - 1].lineEnd + 1)
    && (ss != [] ==> ss[0].lineStart == first + 1 && ss[|ss| - 1].lineEnd == |d.lines|)
    && (ss == [] ==> first == |d.lines|)
  }

  /** Where the sections start: only blank lines before the first heading are left out. */
  function Covered(d: Doc, hs: seq<Heading>): nat
    requires d.start <= Until(hs, 0, |d.lines|) <= |d.lines|
  {
    if Preambles(d, hs, |d.lines|) == 0 then Until(hs, 0, |d.lines|) else d.start
  }

  /** Section k of a document, by the lines it spans. */
  lemma SectionSpan(t: Text, d: Doc, hs: seq<Heading>, k: nat)
    requires Ordered(hs, d.start, |d.lines|) && k < |Cut(t, d, hs, |d.lines|)|
    ensures d.start <= Until(hs, 0, |d.lines|) <= |d.lines|
    ensures var h := k + 1 - Preambles(d, hs, |d.lines|);
            var s := Cut(t, d, hs, |d.lines|)[k];
            && 0 <= h <= |hs| && Holds(d, s)
            && s.lineStart == (if h == 0 then d.start else hs[h - 1].line) + 1 && s.lineEnd == Until(hs, h, |d.lines|)
            && (h == 0 ==> s.level == 0 && s.heading == d.title && s.headingPath == [d.title] && s.anchor == "")
            && (h > 0 ==> s.level == hs[h - 1].level && s.heading == hs[h - 1].text
                          && s.headingPath == Crumb(t, d.title, Stack(hs[..h])) 
                          && s.anchor == AnchorsOf(t, hs[..h])[h - 1])
  {
    hide Cut, Crumb, Stack, AnchorsOf;
    CutAt(t, d, hs, |d.lines|, k);
    var h := k + 1 - Preambles(d, hs, |d.lines|);
    if h == 0 {
      assert d.Body(d.start, d.start) == "";
    } else {
      OrderedWithin(hs, d.start, |d.lines|, h - 1);
    }
  }

  lemma SectionTiles(t: Text, d: Doc, hs: seq<Heading>, k: nat)
    requires Ordered(hs, d.start, |d.lines|) && k < |Cut(t, d, hs, |d.lines|)|
    ensures var ss := Cut(t, d, hs, |d.lines|);
            && Holds(d, ss[k])
            && (k > 0 ==> ss[k].lineStart == ss[k - 1].lineEnd + 1)
            && d.start <= Until(hs, 0, |d.lines|) <= |d.lines|
            && (k == 0 ==> ss[k].lineStart == Covered(d, hs) + 1)
            && (k == |ss| - 1 ==> ss[k].lineEnd == |d.lines|)
  {
    hide Cut, Crumb, Stack, AnchorsOf, Holds;
    CutCount(t, d, hs, |d.lines|);
    SectionSpan(t, d, hs, k);
    if k > 0 {
      SectionSpan(t, d, hs, k - 1);
    }
  }

  /** The sections tile the text, but for blank lines before the first heading. */
  lemma SectionsTile(t: Text, d: Doc)
    requires d.Valid()
    ensures var hs := Headings(t, d.lines, d.start, |d.lines|);
            && d.start <= Until(hs, 0, |d.lines|) <= |d.lines|
            && Tiling(d, Sections(t, d), Covered(d, hs)) && Blank(d.Body(d.start, Covered(d, hs)))
  {
    hide Cut, Crumb, Stack, AnchorsOf, Holds;
    var hs := Headings(t, d.lines, d.start, |d.lines|);
    HeadingsOrdered(t, d.lines, d.start, |d.lines|);
    CutCount(t, d, hs, |d.lines|);
    assert d.Body(d.start, d.start) == "";
    var ss := Sections(t, d);
    forall k | 0 <= k < |ss|
      ensures Holds(d, ss[k]) && (k > 0 ==> ss[k].lineStart == ss[k - 1].lineEnd + 1)
      ensures k == 0 ==> ss[k].lineStart == Covered(d, hs) + 1
      ensures k == |ss| - 1 ==> ss[k].lineEnd == |d.lines|
    {
      SectionTiles(t, d, hs, k);
    }
  }

  /** A section below the preamble starts on line i + 1 exactly when line i is a heading, so never inside a fence. */
  lemma HeadingsStartSections(t: Text, d: Doc, i: nat)
    requires d.Valid() && i < |d.lines|
    ensures HeadingAt(t, d.lines, d.start, i).Some?
       <==> exists k | 0 <= k < |Sections(t, d)| :: Sections(t, d)[k].level > 0 && Sections(t, d)[k].lineStart == i + 1
  {
    hide *;
    if HeadingAt(t, d.lines, d.start, i).Some? {
      var k := SectionOfHeading(t, d, i);
    } else if k :| 0 <= k < |Sections(t, d)| && Sections(t, d)[k].level > 0 && Sections(t, d)[k].lineStart == i + 1 {
      HeadingOfSection(t, d, k);
    }
  }

  /** So no line from one that begins a fence to the first that closes it starts a section below the preamble. */
  lemma FencedStartsNothing(t: Text, d: Doc, j: nat, i: nat, f: Fence, k: nat)
    requires d.Valid() && d.start <= j <= i < |d.lines|
    requires FenceAt(d.lines, d.start, j).None? && FenceDelim(d.lines[j]) == Some(f)
    requires forall n | j < n < i :: !IsFenceClose(d.lines[n], f)
    requires k < |Sections(t, d)| && Sections(t, d)[k].level > 0
    ensures Sections(t, d)[k].lineStart != i + 1
  {
    hide *;
    FencedIsNoHeading(t, d.lines, d.start, j, i, f);
    if Sections(t, d)[k].lineStart == i + 1 {
      HeadingOfSection(t, d, k);
    }
  }

  lemma SectionOfHeading(t: Text, d: Doc, i: nat) returns (k: nat)
    requires d.Valid() && i < |d.lines| && HeadingAt(t, d.lines, d.start, i).Some?
    ensures k < |Sections(t, d)| && Sections(t, d)[k].level > 0 && Sections(t, d)[k].lineStart == i + 1
  {
    hide Cut, Crumb, Stack, AnchorsOf;
    var hs := Headings(t, d.lines, d.start, |d.lines|);
    HeadingsOrdered(t, d.lines, d.start, |d.lines|);
    CutCount(t, d, hs, |d.lines|);
    HeadingsFindsAll(t, d.lines, d.start, |d.lines|, HeadingAt(t, d.lines, d.start, i).value);
    var h :| 0 <= h < |hs| && hs[h].line == i;
    k := Preambles(d, hs, |d.lines|) + h;
    SectionSpan(t, d, hs, k);
  }

  lemma HeadingOfSection(t: Text, d: Doc, k: nat)
    requires d.Valid() && k < |Sections(t, d)| && Sections(t, d)[k].level > 0
    ensures var i := Sections(t, d)[k].lineStart - 1; 0 <= i < |d.lines| && HeadingAt(t, d.lines, d.start, i).Some?
  {
    hide Cut, Crumb, Stack, AnchorsOf;
    var hs := Headings(t, d.lines, d.start, |d.lines|);
    HeadingsOrdered(t, d.lines, d.start, |d.lines|);
    SectionSpan(t, d, hs, k);
    HeadingsFindsAll(t, d.lines, d.start, |d.lines|, hs[k - Preambles(d, hs, |d.lines|)]);
  }

  // ---------- Breadcrumbs ----------

  /** The last of the headings hs of level at most level. */
  function LastUpTo(hs: seq<Heading>, level: nat): Option<Heading> {
    if hs == [] then None
    else if hs[|hs| - 1].level <= level then Some(hs[|hs| - 1])
    else LastUpTo(hs[..|hs| - 1], level)
  }

  /** Slot j of the breadcrumb is the last heading of level at most j + 1, when that is its level, and else empty. */
  lemma {:induction false} BreadcrumbSlot(hs: seq<Heading>, j: nat)
    requires j < |Stack(hs)|
    ensures hs != [] && |Stack(hs)| == hs[|hs| - 1].level
    ensures Stack(hs)[j] == match LastUpTo(hs, j + 1)
                            case Some(h) => if h.level == j + 1 then h.text else ""
                            case None => ""
  {
    var before, h := hs[..|hs| - 1], hs[|hs| - 1];
    if j + 1 < h.level {
      if j < |Stack(before)| {
        BreadcrumbSlot(before, j);
      } else if before != [] {
        assert |Stack(before)| == before[|before| - 1].level;
      }
    }
  }

  lemma {:induction false} NonEmptyLast(s: seq<string>)
    requires s != [] && s[|s| - 1] != ""
    ensures NonEmpty(s) != [] && NonEmpty(s)[|NonEmpty(s)| - 1] == s[|s| - 1]
  {
    if |s| > 1 {
      NonEmptyLast(s[1..]);
    }
  }

  /** A section's heading path ends with its own heading. */
  lemma PathEndsWithHeading(t: Text, d: Doc, k: nat)
    requires d.Valid() && k < |Sections(t, d)| && Sections(t, d)[k].heading != ""
    ensures var s := Sections(t, d)[k]; s.headingPath != [] && s.headingPath[|s.headingPath| - 1] == s.heading
  {
    hide Cut, AnchorsOf, Closing, Holds, Headings, Blank, Crumb, Stack;
    var hs := Headings(t, d.lines, d.start, |d.lines|);
    HeadingsOrdered(t, d.lines, d.start, |d.lines|);
    SectionSpan(t, d, hs, k);
    var h := k + 1 - Preambles(d, hs, |d.lines|);
    if h > 0 {
      CrumbLast(t, d.title, hs[..h]);
    }
  }

  lemma CrumbLast(t: Text, title: string, hs: seq<Heading>)
    requires hs != [] && hs[|hs| - 1].text != ""
    ensures var crumb := Crumb(t, title, Stack(hs)); crumb != [] && crumb[|crumb| - 1] == hs[|hs| - 1].text
  {
    NonEmptyLast(Stack(hs));
  }

  // ---------- Anchors and ids ----------

  /** Anchors are not empty, hold no '#' and differ from each other. */
  lemma {:induction false} AnchorsDiffer(t: Text, hs: seq<Heading>, j: nat, k: nat)
    requires j <= k < |hs|
    ensures AnchorsOf(t, hs)[k] != "" && Slug(AnchorsOf(t, hs)[k])
    ensures j < k ==> AnchorsOf(t, hs)[j] != AnchorsOf(t, hs)[k]
  {
    hide Anchor, SlugOf;
    var before := AnchorsOf(t, hs[..|hs| - 1]);
    var lower := t.lower(hs[|hs| - 1].text);
    if k < |hs| - 1 {
      AnchorsDiffer(t, hs[..|hs| - 1], j, k);
    } else {
      SlugIsSlug(lower);
      AnchorIsSlug(Elements(before), SlugOf(lower));
      assert j < k ==> before[j] in Elements(before);
    }
  }

  /** Each heading's anchor is that of its slug, when those of the headings before it are taken. */
  lemma AnchorsMeans(t: Text, hs: seq<Heading>, k: nat)
    requires k < |hs|
    ensures AnchorsOf(t, hs)[k]
            == Anchor((set a | a in AnchorsOf(t, hs)[..k]), SlugOf(t.lower(hs[k].text)))
  {
    hide Anchor, SlugOf;
    AnchorsPrefix(t, hs, k + 1);
    AnchorsPrefix(t, hs, k);
    assert hs[..k + 1][..k] == hs[..k] && hs[..k + 1][k] == hs[k];
    assert AnchorsOf(t, hs)[k] == AnchorsOf(t, hs)[..k + 1][k];
  }

  lemma {:induction false} AnchorsPrefix(t: Text, hs: seq<Heading>, h: nat)
    requires h <= |hs|
    ensures AnchorsOf(t, hs[..h]) == AnchorsOf(t, hs)[..h]
  {
    hide Anchor, SlugOf;
    if h < |hs| {
      assert hs[..|hs| - 1][..h] == hs[..h];
      AnchorsPrefix(t, hs[..|hs| - 1], h);
    } else {
      assert hs[..h] == hs;
    }
  }

  function Id(s: Section): string {
    if s.anchor == "" then s.docPath else s.docPath + "#" + s.anchor
  }

  /** Only the preamble has no anchor, and no two sections of a document have the same anchor. */
  lemma SectionAnchors(t: Text, d: Doc, j: nat, k: nat)
    requires d.Valid() && j <= k < |Sections(t, d)|
    ensures Slug(Sections(t, d)[k].anchor) && (Sections(t, d)[k].anchor == "" <==> Sections(t, d)[k].level == 0)
    ensures j < k ==> Sections(t, d)[j].anchor != Sections(t, d)[k].anchor
  {
    hide Cut, Crumb, Stack, AnchorsOf, Closing, Holds, Headings, Blank, Ordered;
    var hs := Headings(t, d.lines, d.start, |d.lines|);
    HeadingsOrdered(t, d.lines, d.start, |d.lines|);
    SectionSpan(t, d, hs, k);
    SectionSpan(t, d, hs, j);
    var pre := Preambles(d, hs, |d.lines|);
    if k >= pre {
      AnchorsPrefix(t, hs, k + 1 - pre);
      AnchorsDiffer(t, hs, k - pre, k - pre);
      if pre <= j < k {
        AnchorsPrefix(t, hs, j + 1 - pre);
        AnchorsDiffer(t, hs, j - pre, k - pre);
      }
    }
  }

  /** The sections of a document have different ids. */
  lemma IdsDiffer(t: Text, d: Doc, j: nat, k: nat)
    requires d.Valid() && j < k < |Sections(t, d)|
    ensures Id(Sections(t, d)[j]) != Id(Sections(t, d)[k])
  {
    hide Cut, Sections;
    SectionAnchors(t, d, j, k);
    SectionPath(t, d, j);
    SectionPath(t, d, k);
    var a, b := Sections(t, d)[j], Sections(t, d)[k];
    assert Id(a)[|d.path|..] == if a.anchor == "" then "" else "#" + a.anchor;
    assert Id(b)[|d.path|..] == if b.anchor == "" then "" else "#" + b.anchor;
    assert ("#" + a.anchor)[1..] == a.anchor && ("#" + b.anchor)[1..] == b.anchor;
  }

  lemma SectionHolds(t: Text, d: Doc, k: nat)
    requires d.Valid() && k < |Sections(t, d)|
    ensures Holds(d, Sections(t, d)[k])
  {
    hide Cut, Crumb, Stack, AnchorsOf, Holds;
    HeadingsOrdered(t, d.lines, d.start, |d.lines|);
    SectionSpan(t, d, Headings(t, d.lines, d.start, |d.lines|), k);
  }

  lemma SectionPath(t: Text, d: Doc, k: nat)
    requires d.Valid() && k < |Sections(t, d)|
    ensures Sections(t, d)[k].docPath == d.path && Sections(t, d)[k].title == d.title
    ensures Sections(t, d)[k].topic == TopicOf(d.path)
  {
    hide Cut, Crumb, Stack, AnchorsOf;
    HeadingsOrdered(t, d.lines, d.start, |d.lines|);
    SectionSpan(t, d, Headings(t, d.lines, d.start, |d.lines|), k);
  }
}
