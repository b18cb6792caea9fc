/**
 Reading a document or a section by its id (Get and splitID in internal/docs/service.go), from one snapshot
 of the cache: clean is safeRelPath, which refuses a path or gives the one its file is kept under in the snapshot.
 */
module DocsGet {
  import opened Wrappers
  import opened Anchors
  import opened DocsParse
  import opened Strings
  import opened DocsSections

  datatype GetResult =
    | InvalidId
    | NotFound
    | Got(id: string, path: string, topic: string, title: string, anchor: string, headingPath: seq<string>,
          lineStart: nat, lineEnd: nat, content: string)

  /** splitID: what comes before and after the first '#'. */
  function SplitId(id: string): (string, string) {
    var trimmed := TrimSpace(id);
    var i := IndexOf(trimmed, '#');
    if i < |trimmed| then (trimmed[..i], trimmed[i + 1..]) else (trimmed, "")
  }

  /** The whole document. */
  function Whole(t: Text, path: string, content: string): GetResult {
    Got(path, path, TopicOf(path), TitleOf(t, path, SplitLines(content)), "", [], 0, 0, content)
  }

  function OneSection(s: Section): GetResult {
    Got(Id(s), s.docPath, s.topic, s.title, s.anchor, s.headingPath, s.lineStart, s.lineEnd, s.body)
  }

  type Clean = string -> Option<string>

  /** What Get promises: the document, or its section with that anchor. */
  ghost predicate Gets(t: Text, clean: Clean, files: map<string, string>, id: string, r: GetResult) {
    var (path, anchor) := SplitId(id);
    if TrimSpace(path) == "" || clean(path).None? then r == InvalidId
    else if clean(path).value !in files then r == NotFound
    else GetsFrom(t, path, files[clean(path).value], anchor, r)
  }

  ghost predicate GetsFrom(t: Text, path: string, content: string, anchor: string, r: GetResult) {
    if anchor == "" then r == Whole(t, path, content)
    else
      var ss := Parsed(t, path, content);
      || (r == NotFound && forall s <- ss :: s.anchor != anchor)
      || exists s <- ss :: s.anchor == anchor && r == OneSection(s)
  }

  method Get(t: Text, clean: Clean, files: map<string, string>, id: string) returns (r: GetResult)
    requires t.atx("").None? && forall path <- files :: |DocLines(files[path])| < MAX_INT
    ensures Gets(t, clean, files, id, r)
  {
    hide Parsed, TitleOf, SplitId, TrimSpace, TopicOf, DocLines;
    var (path, anchor) := SplitId(id);
    if TrimSpace(path) == "" {
      return InvalidId;
    }
    var file := clean(path);
    if file.None? {
      return InvalidId;
    }
    if file.value !in files {
      return NotFound;
    }
    var content := files[file.value];
    var title := DocTitle(t, path, SplitLines(content));
    if anchor == "" {
      return Got(path, path, TopicOf(path), title, "", [], 0, 0, content);
    }
    r := FindSection(t, path, content, title, anchor);
  }

  /** A section has the path and the title of its document. */
  lemma OneOfSections(t: Text, path: string, content: string, k: nat)
    requires t.atx("").None? && k < |Parsed(t, path, content)|
    ensures var s := Parsed(t, path, content)[k];
            s.docPath == path && s.title == TitleOf(t, path, SplitLines(content))
  {
    hide Sections, TitleOf;
    TitleAgrees(t, path, content);
    SectionPath(t, DocOf(t, path, content), k);
  }

  /** The loop of Get over the sections. */
  method FindSection(t: Text, path: string, content: string, title: string, anchor: string) returns (r: GetResult)
    requires t.atx("").None? && |DocLines(content)| < MAX_INT && title == TitleOf(t, path, SplitLines(content))
    ensures r == NotFound ==> forall s <- Parsed(t, path, content) :: s.anchor != anchor
    ensures r != NotFound ==> exists s <- Parsed(t, path, content) :: s.anchor == anchor && r == OneSection(s)
  {
    hide Parsed, TitleOf;
    var ss := ParseDoc(t, path, content);
    for k := 0 to |ss|
      invariant forall j | 0 <= j < k :: ss[j].anchor != anchor
    {
      var s := ss[k];
      if s.anchor == anchor {
        OneOfSections(t, path, content, k);
        return Got(Id(s), path, s.topic, title, anchor, s.headingPath, s.lineStart, s.lineEnd, s.body);
      }
    }
    r := NotFound;
  }

  // ---------- The title Get shows is the one the sections carry ----------

  lemma {:induction false} SameRule(lines: seq<string>, i: nat)
    requires i <= |lines|
    ensures NextRule(lines + [""], i) == if NextRule(lines, i) == |lines| then |lines| + 1 else NextRule(lines, i)
    decreases |lines| - i
  {
    assert !IsRule("");
    if i < |lines| && !IsRule(lines[i]) {
      SameRule(lines, i + 1);
    }
  }

  lemma {:induction false} SameFence(lines: seq<string>, start: nat, i: nat)
    requires i <= |lines|
    ensures FenceAt(lines + [""], start, i) == FenceAt(lines, start, i)
  {
    if i > start {
      SameFence(lines, start, i - 1);
    }
  }

  lemma {:induction false} SameHeadings(t: Text, lines: seq<string>, start: nat, i: nat)
    requires i <= |lines|
    ensures Headings(t, lines + [""], start, i) == Headings(t, lines, start, i)
  {
    if i > 0 {
      SameHeadings(t, lines, start, i - 1);
      SameFence(lines, start, i - 1);
    }
  }

  lemma BlankLineNoHeading(t: Text, lines: seq<string>, start: nat)
    requires t.atx("").None?
    ensures Headings(t, lines + [""], start, |lines| + 1) == Headings(t, lines + [""], start, |lines|)
  {
  }

  /** An empty line at the end, as a final newline leaves, does not change the title. */
  lemma SameTitle(t: Text, path: string, lines: seq<string>)
    requires t.atx("").None?
    ensures TitleOf(t, path, lines + [""]) == TitleOf(t, path, lines)
  {
    hide Headings, TitleField;
    var start := FrontMatter(lines);
    assert !IsRule("");
    if lines != [] {
      SameRule(lines, 1);
    }
    assert FrontMatter(lines + [""]) == start;
    SameHeadings(t, lines, start, |lines|);
    BlankLineNoHeading(t, lines, start);
    assert (lines + [""])[..|lines|] == lines;
    assert start > 0 ==> (lines + [""])[1..start - 1] == lines[1..start - 1];
  }

  lemma TitleAgrees(t: Text, path: string, content: string)
    requires t.atx("").None?
    ensures TitleOf(t, path, SplitLines(content)) == DocOf(t, path, content).title
  {
    var lines := SplitLines(content);
    if lines[|lines| - 1] == "" {
      assert lines[..|lines| - 1] + [""] == lines;
      SameTitle(t, path, lines[..|lines| - 1]);
    }
  }

  // ---------- Ids lead back to their sections ----------

  /** Without spaces at its end, what is trimmed is the spaces at the start. */
  lemma {:induction false} TrimStart(s: string) returns (n: nat)
    requires s != "" && !IsSpace(s[|s| - 1])
    ensures n < |s| && TrimSpace(s) == s[n..] && (n > 0 <==> IsSpace(s[0])) && forall i | 0 <= i < n :: IsSpace(s[i])
  {
    n := 0;
    if IsSpace(s[0]) {
      n := TrimStart(s[1..]);
      n := n + 1;
    }
  }

  /** An id with an anchor is cut at the first '#' left once it is trimmed. */
  lemma SplitAnchored(path: string, anchor: string) returns (n: nat, i: nat)
    requires Slug(anchor) && anchor != ""
    ensures n <= |path| && (n > 0 <==> path != "" && IsSpace(path[0]))
    ensures i <= |path| - n && i == IndexOf(path[n..], '#')
    ensures SplitId(path + "#" + anchor).0 == path[n..][..i]
    ensures n == 0 && i == |path| ==> SplitId(path + "#" + anchor).1 == anchor
  {
    var id := path + "#" + anchor;
    assert id[|id| - 1] == anchor[|anchor| - 1] && SlugChar(id[|id| - 1]);
    n := TrimStart(id);
    assert !IsSpace(id[|path|]);
    var rest := path[n..];
    assert id[n..] == rest + ['#'] + anchor;
    IndexIn(rest, '#', anchor);
    i := IndexOf(rest, '#');
    assert (rest + ['#'] + anchor)[..i] == rest[..i];
    assert (rest + ['#'] + anchor)[|rest| + 1..] == anchor;
  }

  /** It splits into what it was made of exactly when the path has no '#' and starts with no space. */
  lemma SplitsBack(path: string, anchor: string)
    requires Slug(anchor) && anchor != ""
    ensures path == "" || !IsSpace(path[0]) ==> '#' !in path ==> SplitId(path + "#" + anchor) == (path, anchor)
    ensures path != "" && (IsSpace(path[0]) || '#' in path) ==> |SplitId(path + "#" + anchor).0| < |path|
  {
    hide SplitId;
    var n, i := SplitAnchored(path, anchor);
    if n == 0 {
      assert path[0..] == path && path[..|path|] == path;
    }
  }

  /** The snapshot holds content for the document at path. */
  predicate HoldsDocument(clean: Clean, files: map<string, string>, path: string, content: string) {
    clean(path).Some? && clean(path).value in files && files[clean(path).value] == content
  }

  /** What Get returns is of the path its id splits into. */
  lemma GotFromPath(t: Text, clean: Clean, files: map<string, string>, id: string, r: GetResult)
    requires Gets(t, clean, files, id, r) && r.Got?
    ensures r.path == SplitId(id).0 && TrimSpace(r.path) != ""
  {
    hide Sections, TitleOf, SplitId;
    var (path, anchor) := SplitId(id);
    var content := files[clean(path).value];
    if anchor != "" {
      var ss := Parsed(t, path, content);
      var s :| s in ss && s.anchor == anchor && r == OneSection(s);
      var k :| 0 <= k < |ss| && ss[k] == s;
      SectionPath(t, DocOf(t, path, content), k);
    }
  }

  /** An id, trimmed, is a path without '#', and what follows the first one if there is one. */
  lemma SplitMeans(id: string)
    ensures var (path, anchor) := SplitId(id);
            '#' !in path && TrimSpace(id) == if '#' in TrimSpace(id) then path + "#" + anchor else path
    ensures '#' !in TrimSpace(id) ==> SplitId(id).1 == ""
  {
    hide TrimSpace;
    var trimmed := TrimSpace(id);
    var i := IndexOf(trimmed, '#');
    if i < |trimmed| {
      assert trimmed == trimmed[..i] + "#" + trimmed[i + 1..] && '#' in trimmed;
    } else {
      assert trimmed[..i] == trimmed;
    }
  }

  /**
   When Get returns nothing: the id is invalid when its path is blank or refused, and not found when there is no such
   document, or in it no section with the anchor asked for.
   */
  lemma NothingGot(t: Text, clean: Clean, files: map<string, string>, id: string, r: GetResult)
    requires Gets(t, clean, files, id, r)
    ensures r == InvalidId <==> (forall c <- SplitId(id).0 :: IsSpace(c)) || clean(SplitId(id).0).None?
    ensures r == NotFound
       <==> && r != InvalidId
            && var (path, anchor) := SplitId(id);
               clean(path).Some? && (clean(path).value in files ==>
                                       && anchor != ""
                                       && forall s <- Parsed(t, path, files[clean(path).value]) :: s.anchor != anchor)
  {
    hide SplitId, TrimSpace, Parsed, TopicOf, TitleOf;
    BlankTrims(SplitId(id).0);
  }

  lemma {:induction false} BlankTrims(s: string)
    ensures TrimSpace(s) == "" <==> forall c <- s :: IsSpace(c)
  {
    var a, b := TrimSpaceMeans(s);
    hide TrimSpace;
    forall i | 0 <= i < |s|
      ensures s[i] in s
    {
    }
  }

  /** What Get returns for an id without an anchor is the document at its path, whole. */
  lemma DocumentGot(t: Text, clean: Clean, files: map<string, string>, id: string, r: GetResult)
    requires Gets(t, clean, files, id, r) && r.Got? && SplitId(id).1 == ""
    ensures var path := SplitId(id).0;
            && r.id == r.path == path && r.topic == TopicOf(path) && r.anchor == "" && r.headingPath == []
            && r.lineStart == r.lineEnd == 0 && clean(path).Some? && clean(path).value in files
            && r.content == files[clean(path).value] && r.title == TitleOf(t, path, SplitLines(r.content))
  {
    hide SplitId, TitleOf, TopicOf, TrimSpace;
  }

  /**
   What Get returns for an id with an anchor is a section of the document at its path: that anchor's, its lines counted
   from 1, and as its content those lines, but for the newlines at their end.
   */
  lemma SectionGot(t: Text, clean: Clean, files: map<string, string>, id: string, r: GetResult)
    returns (k: nat, n: nat)
    requires Gets(t, clean, files, id, r) && r.Got? && SplitId(id).1 != ""
    ensures var (path, anchor) := SplitId(id);
            && clean(path).Some? && clean(path).value in files && k < |Parsed(t, path, files[clean(path).value])|
            && var d, s := DocOf(t, path, files[clean(path).value]), Parsed(t, path, files[clean(path).value])[k];
            && s.anchor == r.anchor == anchor && s.headingPath == r.headingPath
            && s.lineStart == r.lineStart && s.lineEnd == r.lineEnd
            && r.id == path + "#" + anchor && r.path == path && r.topic == TopicOf(path) && r.title == d.title
            && d.start < r.lineStart <= r.lineEnd <= |d.lines|
            && var text := JoinLines(d.lines[r.lineStart - 1..r.lineEnd]);
            && n <= |text| && r.content == text[..n] && (n > 0 ==> text[n - 1] != '\n')
            && forall i | n <= i < |text| :: text[i] == '\n'
  {
    hide Sections, TitleOf, SplitId, TrimSpace, TopicOf, DocLines;
    var (path, anchor) := SplitId(id);
    var content := files[clean(path).value];
    var ss := Parsed(t, path, content);
    var s :| s in ss && s.anchor == anchor && r == OneSection(s);
    k :| 0 <= k < |ss| && ss[k] == s;
    var d := DocOf(t, path, content);
    SectionPath(t, d, k);
    SectionHolds(t, d, k);
    n := BodyMeans(d, s.lineStart - 1, s.lineEnd);
  }

  /**
   In a snapshot that holds its document, Get of the id of a section with a heading returns that section if and only if
   the document's path is not empty, starts with no space and has no '#'.
   */
  lemma IdLeadsBack(t: Text, clean: Clean, files: map<string, string>, path: string, content: string, k: nat,
                    r: GetResult)
    requires k < |Parsed(t, path, content)| && Parsed(t, path, content)[k].level > 0
    requires HoldsDocument(clean, files, path, content) && Gets(t, clean, files, Id(Parsed(t, path, content)[k]), r)
    ensures r == OneSection(Parsed(t, path, content)[k]) <==> path != "" && !IsSpace(path[0]) && '#' !in path
  {
    hide Sections, TitleOf, SplitId;
    var ss := Parsed(t, path, content);
    var s := ss[k];
    var d := DocOf(t, path, content);
    SectionPath(t, d, k);
    SectionAnchors(t, d, k, k);
    SplitsBack(path, s.anchor);
    if path != "" && !IsSpace(path[0]) && '#' !in path {
      PathNotBlank(path);
      forall j | 0 <= j < |ss| && ss[j].anchor == s.anchor
        ensures j == k
      {
        SectionAnchors(t, d, if j < k then j else k, if j < k then k else j);
      }
    } else if r.Got? {
      GotFromPath(t, clean, files, Id(s), r);
    }
  }

  /** So what an id that leads back gets has the section's own fields, and its lines. */
  lemma IdGetsItsLines(t: Text, clean: Clean, files: map<string, string>, path: string, content: string, k: nat,
                       r: GetResult)
    returns (n: nat)
    requires k < |Parsed(t, path, content)| && Parsed(t, path, content)[k].level > 0
    requires HoldsDocument(clean, files, path, content) && Gets(t, clean, files, Id(Parsed(t, path, content)[k]), r)
    requires path != "" && !IsSpace(path[0]) && '#' !in path
    ensures var d, s := DocOf(t, path, content), Parsed(t, path, content)[k];
            && r.Got? && r.id == path + "#" + s.anchor && r.path == path && r.anchor == s.anchor
            && r.headingPath == s.headingPath && r.lineStart == s.lineStart && r.lineEnd == s.lineEnd
            && d.start < r.lineStart <= r.lineEnd <= |d.lines|
            && var text := JoinLines(d.lines[r.lineStart - 1..r.lineEnd]);
            && n <= |text| && r.content == text[..n] && (n > 0 ==> text[n - 1] != '\n')
            && forall i | n <= i < |text| :: text[i] == '\n'
  {
    hide Sections, TitleOf, SplitId, Gets, DocLines;
    IdLeadsBack(t, clean, files, path, content, k, r);
    var d := DocOf(t, path, content);
    SectionPath(t, d, k);
    SectionAnchors(t, d, k, k);
    SectionHolds(t, d, k);
    n := BodyMeans(d, r.lineStart - 1, r.lineEnd);
  }

  lemma {:induction false} PathNotBlank(path: string)
    requires path != "" && !IsSpace(path[0])
    ensures TrimSpace(path) != ""
  {
    if IsSpace(path[|path| - 1]) {
      PathNotBlank(path[..|path| - 1]);
    }
  }

  /** The id of a preamble gets its whole document if and only if the path is also trimmed. */
  lemma PreambleIdIsDocument(t: Text, clean: Clean, files: map<string, string>, path: string, content: string, k: nat,
                             r: GetResult)
    requires k < |Parsed(t, path, content)| && Parsed(t, path, content)[k].level == 0
    requires HoldsDocument(clean, files, path, content) && Gets(t, clean, files, Id(Parsed(t, path, content)[k]), r)
    ensures r == Whole(t, path, content)
       <==> path != "" && !IsSpace(path[0]) && !IsSpace(path[|path| - 1]) && '#' !in path
  {
    hide Sections, TitleOf;
    var d := DocOf(t, path, content);
    SectionPath(t, d, k);
    SectionAnchors(t, d, k, k);
    Trims(path);
    assert path[..|path|] == path;
    if r.Got? {
      GotFromPath(t, clean, files, path, r);
    }
  }
}
