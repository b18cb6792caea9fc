/**
 Splitting a Markdown document into sections (internal/docs/parse.go). Recognising a heading in a line, and
 Unicode text handling, are parameters: what is proved holds whatever they answer.
 */
module DocsParse {
  import opened Anchors
  import opened Strings
  import opened Wrappers

  type Level = n: int | n >= 1 witness 1

  /** What an ATX heading line says: its level and its trimmed text. */
  datatype Atx = Atx(level: Level, text: string)

  /** atx recognises heading lines; the others are Unicode and YAML text handling. */
  datatype Text = Text(atx: string -> Option<Atx>, lower: string -> string, equalFold: (string, string) -> bool,
                       unquote: string -> string, stripControl: string -> string, fileTitle: string -> string)

  // ---------- Lines ----------

  /** The lines of a document, without the empty one after a final newline. */
  function DocLines(content: string): seq<string> {
    var lines := SplitLines(content);
    if lines[|lines| - 1] == "" then lines[..|lines| - 1] else lines
  }

  /** The lines joined are the document, but for a newline at its end. */
  lemma DocLinesMeans(content: string)
    ensures content == JoinLines(DocLines(content))
                       + if content != "" && content[|content| - 1] == '\n' then "\n" else ""
    ensures forall line <- DocLines(content) :: '\n' !in line
  {
    var lines := SplitLines(content);
    SplitJoins(content, '\n');
    var last := lines[|lines| - 1];
    if |lines| > 1 {
      JoinLast(lines, "\n");
      assert content == JoinLines(lines[..|lines| - 1]) + "\n" + last;
    } else {
      assert content == lines[0];
    }
    if last != "" {
      assert content[|content| - 1] == last[|last| - 1] && last[|last| - 1] in last;
    }
  }

  // ---------- Code fences ----------

  /** How many characters s starts with that are c. */
  function RunLength(s: string, c: char): (n: nat)
    ensures n <= |s|
  {
    if s == "" || s[0] != c then 0 else 1 + RunLength(s[1..], c)
  }

  /** A run of backticks or tildes that opens or closes a code fence. */
  datatype Fence = Fence(ch: char, length: nat)

  /** fenceDelim: the run a line begins with, when it begins a code fence. */
  function FenceDelim(line: string): Option<Fence> {
    var t := TrimLeft(line, {' ', '\t'});
    if t == "" || t[0] !in {'`', '~'} || RunLength(t, t[0]) < 3 then None
    else Some(Fence(t[0], RunLength(t, t[0])))
  }

  /** isFenceClose: per section 4.5 of CommonMark, the same character, at least as long, and nothing after. */
  predicate IsFenceClose(line: string, open: Fence) {
    match FenceDelim(line)
    case None => false
    case Some(f) =>
      var rest := TrimLeft(line, {' ', '\t'});
      f.ch == open.ch && f.length >= open.length && f.length <= |rest|
      && TrimRight(rest[f.length..], {' ', '\t'}) == ""
  }

  function Repeat(c: char, n: nat): string {
    seq(n, _ => c)
  }

  predicate Blanks(s: string) {
    forall i | 0 <= i < |s| :: s[i] in {' ', '\t'}
  }

  lemma {:induction false} RunIsRepeat(s: string, c: char)
    ensures s[..RunLength(s, c)] == Repeat(c, RunLength(s, c))
    ensures RunLength(s, c) < |s| ==> s[RunLength(s, c)] != c
  {
    if s != "" && s[0] == c {
      RunIsRepeat(s[1..], c);
      assert s[..RunLength(s, c)] == [c] + s[1..][..RunLength(s[1..], c)];
    }
  }

  lemma {:induction false} RunOf(c: char, n: nat, rest: string)
    requires rest == "" || rest[0] != c
    ensures RunLength(Repeat(c, n) + rest, c) == n
  {
    if n == 0 {
      assert Repeat(c, 0) + rest == rest;
    } else {
      RunOf(c, n - 1, rest);
      assert (Repeat(c, n) + rest)[1..] == Repeat(c, n - 1) + rest;
    }
  }

  lemma {:induction false} Indented(indent: string, s: string)
    requires Blanks(indent) && (s == "" || s[0] !in {' ', '\t'})
    ensures TrimLeft(indent + s, {' ', '\t'}) == s
  {
    if indent == "" {
      assert indent + s == s;
    } else {
      Indented(indent[1..], s);
      assert (indent + s)[1..] == indent[1..] + s;
    }
  }

  lemma {:induction false} TrimLeftSplits(s: string)
    ensures |TrimLeft(s, {' ', '\t'})| <= |s|
    ensures var n := |s| - |TrimLeft(s, {' ', '\t'})|; Blanks(s[..n]) && s[n..] == TrimLeft(s, {' ', '\t'})
    ensures var t := TrimLeft(s, {' ', '\t'}); t == "" || t[0] !in {' ', '\t'}
  {
    if s != "" && s[0] in {' ', '\t'} {
      TrimLeftSplits(s[1..]);
      var n := |s| - |TrimLeft(s, {' ', '\t'})|;
      assert s[..n] == [s[0]] + s[1..][..n - 1];
    }
  }

  lemma {:induction false} TrimsToNothing(s: string)
    ensures TrimRight(s, {' ', '\t'}) == "" <==> Blanks(s)
  {
    if s != "" {
      TrimsToNothing(s[..|s| - 1]);
      assert s == s[..|s| - 1] + [s[|s| - 1]];
    }
  }

  ghost predicate FenceShape(line: string, f: Fence, indent: string, rest: string) {
    Blanks(indent) && line == indent + Repeat(f.ch, f.length) + rest && (rest == "" || rest[0] != f.ch)
  }

  /** A line begins a fence when, after blanks, it starts with a run of three or more backticks or tildes, all of it. */
  lemma FenceDelimMeans(line: string, f: Fence)
    ensures FenceDelim(line) == Some(f)
       <==> f.ch in {'`', '~'} && f.length >= 3 && exists indent, rest :: FenceShape(line, f, indent, rest)
  {
    var t := TrimLeft(line, {' ', '\t'});
    TrimLeftSplits(line);
    if FenceDelim(line) == Some(f) {
      RunIsRepeat(t, f.ch);
      assert FenceShape(line, f, line[..|line| - |t|], t[f.length..]);
    }
    if f.ch in {'`', '~'} && f.length >= 3 && exists indent, rest :: FenceShape(line, f, indent, rest) {
      var indent, rest :| FenceShape(line, f, indent, rest);
      Indented(indent, Repeat(f.ch, f.length) + rest);
      RunOf(f.ch, f.length, rest);
      assert indent + Repeat(f.ch, f.length) + rest == indent + (Repeat(f.ch, f.length) + rest);
    }
  }

  ghost predicate CloseShape(line: string, open: Fence, n: nat, indent: string, rest: string) {
    n >= open.length && Blanks(rest) && FenceShape(line, Fence(open.ch, n), indent, rest)
  }

  lemma CloseHasShape(line: string, open: Fence) returns (n: nat, indent: string, rest: string)
    requires IsFenceClose(line, open)
    ensures CloseShape(line, open, n, indent, rest)
  {
    var t := TrimLeft(line, {' ', '\t'});
    TrimLeftSplits(line);
    n := FenceDelim(line).value.length;
    RunIsRepeat(t, open.ch);
    indent, rest := line[..|line| - |t|], t[n..];
    TrimsToNothing(rest);
  }

  lemma ShapeCloses(line: string, open: Fence, n: nat, indent: string, rest: string)
    requires open.ch in {'`', '~'} && open.length >= 3 && CloseShape(line, open, n, indent, rest)
    ensures IsFenceClose(line, open)
  {
    FenceDelimMeans(line, Fence(open.ch, n));
    hide FenceDelim;
    Indented(indent, Repeat(open.ch, n) + rest);
    assert indent + Repeat(open.ch, n) + rest == indent + (Repeat(open.ch, n) + rest);
    assert (Repeat(open.ch, n) + rest)[n..] == rest;
    TrimsToNothing(rest);
  }

  /** It closes a fence when the run is of the same character and at least as long, with nothing but blanks after. */
  lemma FenceCloseMeans(line: string, open: Fence)
    requires open.ch in {'`', '~'} && open.length >= 3
    ensures IsFenceClose(line, open) <==> exists n, indent, rest :: CloseShape(line, open, n, indent, rest)
  {
    hide IsFenceClose, CloseShape;
    if IsFenceClose(line, open) {
      var n, indent, rest := CloseHasShape(line, open);
    }
    if n: nat, indent, rest :| CloseShape(line, open, n, indent, rest) {
      ShapeCloses(line, open, n, indent, rest);
    }
  }

  /** The fence open after a line, given the one open before it. */
  function AfterLine(fence: Option<Fence>, line: string): Option<Fence> {
    var delim := FenceDelim(line);
    if delim.None? then fence
    else if fence.None? then delim
    else if IsFenceClose(line, fence.value) then None
    else fence
  }

  /** The fence open at line i of a document whose text starts at line start. */
  function FenceAt(lines: seq<string>, start: nat, i: nat): Option<Fence>
    requires i <= |lines|
  {
    if i <= start then None else AfterLine(FenceAt(lines, start, i - 1), lines[i - 1])
  }

  /** An open fence was opened by an earlier line, outside any fence, and no line since closes it. */
  lemma {:induction false} OpenFence(lines: seq<string>, start: nat, i: nat) returns (j: nat)
    requires i <= |lines| && FenceAt(lines, start, i).Some?
    ensures start <= j < i && FenceAt(lines, start, j).None?
    ensures FenceDelim(lines[j]) == FenceAt(lines, start, i)
    ensures forall k | j < k < i :: !IsFenceClose(lines[k], FenceAt(lines, start, i).value)
  {
    if FenceAt(lines, start, i - 1).None? {
      j := i - 1;
    } else {
      j := OpenFence(lines, start, i - 1);
    }
  }

  /** A fence that a line began outside any fence, and no line since closes, is open. */
  lemma {:induction false} OpensFence(lines: seq<string>, start: nat, j: nat, i: nat, f: Fence)
    requires start <= j < i <= |lines| && FenceAt(lines, start, j).None? && FenceDelim(lines[j]) == Some(f)
    requires forall k | j < k < i :: !IsFenceClose(lines[k], f)
    ensures FenceAt(lines, start, i) == Some(f)
  {
    hide FenceDelim, IsFenceClose;
    if j < i - 1 {
      OpensFence(lines, start, j, i - 1, f);
    }
  }

  /**
   A fence is open at a line exactly when an earlier line of the text begins it outside any fence, and no line since
   closes it.
   */
  lemma FenceOpenExactly(lines: seq<string>, start: nat, i: nat, f: Fence)
    requires i <= |lines|
    ensures FenceAt(lines, start, i) == Some(f)
       <==> exists j | start <= j < i :: && FenceAt(lines, start, j).None? && FenceDelim(lines[j]) == Some(f)
                                         && forall k | j < k < i :: !IsFenceClose(lines[k], f)
  {
    hide FenceDelim, IsFenceClose, FenceAt;
    if FenceAt(lines, start, i) == Some(f) {
      var j := OpenFence(lines, start, i);
    }
    if j :| start <= j < i && FenceAt(lines, start, j).None? && FenceDelim(lines[j]) == Some(f)
            && forall k | j < k < i :: !IsFenceClose(lines[k], f) {
      OpensFence(lines, start, j, i, f);
    }
  }

  // ---------- Headings ----------

  /** A heading and the line it is on. */
  datatype Heading = Heading(line: nat, level: Level, text: string)

  /** Line i as a heading: in the text, outside any fence, and no fence itself. */
  function HeadingAt(t: Text, lines: seq<string>, start: nat, i: nat): Option<Heading>
    requires i < |lines|
  {
    if i < start || FenceDelim(lines[i]).Some? || FenceAt(lines, start, i).Some? then None
    else match t.atx(lines[i])
      case None => None
      case Some(a) => Some(Heading(i, a.level, a.text))
  }

  /** A line is a heading when it is in the text, outside any fence, no fence itself, and an ATX heading line. */
  lemma HeadingMeans(t: Text, lines: seq<string>, start: nat, i: nat, h: Heading)
    requires i < |lines|
    ensures HeadingAt(t, lines, start, i) == Some(h)
       <==> && start <= i && FenceDelim(lines[i]).None? && FenceAt(lines, start, i).None?
            && t.atx(lines[i]) == Some(Atx(h.level, h.text)) && h.line == i
  {
    hide FenceDelim, FenceAt;
  }

  /** No line from one that begins a fence to the first that closes it is a heading, that one included. */
  lemma FencedIsNoHeading(t: Text, lines: seq<string>, start: nat, j: nat, i: nat, f: Fence)
    requires start <= j <= i < |lines| && FenceAt(lines, start, j).None? && FenceDelim(lines[j]) == Some(f)
    requires forall k | j < k < i :: !IsFenceClose(lines[k], f)
    ensures HeadingAt(t, lines, start, i).None?
  {
    hide FenceDelim, FenceAt, IsFenceClose;
    if j < i {
      OpensFence(lines, start, j, i, f);
    }
  }

  /** The headings before line n, in order. */
  function Headings(t: Text, lines: seq<string>, start: nat, n: nat): (hs: seq<Heading>)
    requires n <= |lines|
    ensures |hs| <= n
  {
    if n == 0 then []
    else
      match HeadingAt(t, lines, start, n - 1)
      case None => Headings(t, lines, start, n - 1)
      case Some(h) => Headings(t, lines, start, n - 1) + [h]
  }

  /** hs are on increasing lines from start on, and before line end. */
  predicate Ordered(hs: seq<Heading>, start: nat, end: nat) {
    if hs == [] then start <= end
    else start <= hs[|hs| - 1].line < end && Ordered(hs[..|hs| - 1], start, hs[|hs| - 1].line)
  }

  lemma {:induction false} OrderedWithin(hs: seq<Heading>, start: nat, end: nat, k: nat)
    requires Ordered(hs, start, end) && k <= |hs|
    ensures start <= end && Ordered(hs[..k], start, if k < |hs| then hs[k].line else end)
    ensures k < |hs| ==> start <= hs[k].line < if k + 1 < |hs| then hs[k + 1].line else end
  {
    if k < |hs| {
      OrderedWithin(hs[..|hs| - 1], start, hs[|hs| - 1].line, k);
      assert hs[..|hs| - 1][..k] == hs[..k];
    } else {
      assert hs[..k] == hs;
      if hs != [] {
        OrderedWithin(hs[..|hs| - 1], start, hs[|hs| - 1].line, 0);
      }
    }
  }

  lemma {:induction false} OrderedLater(hs: seq<Heading>, start: nat, end: nat, later: nat)
    requires Ordered(hs, start, end) && end <= later
    ensures Ordered(hs, start, later)
  {
  }

  lemma OrderedNone(start: nat, end: nat)
    requires start <= end
    ensures Ordered([], start, end)
  {
  }

  lemma OrderedSnoc(before: seq<Heading>, h: Heading, start: nat, end: nat)
    requires Ordered(before, start, h.line) && start <= h.line < end
    ensures Ordered(before + [h], start, end)
  {
    assert (before + [h])[..|before|] == before;
  }

  lemma {:induction false} HeadingsOrdered(t: Text, lines: seq<string>, start: nat, n: nat)
    requires start <= n <= |lines|
    ensures Ordered(Headings(t, lines, start, n), start, n)
  {
    hide Ordered, FenceAt, FenceDelim;
    if n == start {
      NoneBeforeStart(t, lines, start, n);
      OrderedNone(start, n);
    } else {
      HeadingsOrdered(t, lines, start, n - 1);
      var before := Headings(t, lines, start, n - 1);
      if HeadingAt(t, lines, start, n - 1).Some? {
        OrderedSnoc(before, HeadingAt(t, lines, start, n - 1).value, start, n);
      } else {
        OrderedLater(before, start, n - 1, n);
      }
    }
  }

  lemma {:induction false} NoneBeforeStart(t: Text, lines: seq<string>, start: nat, n: nat)
    requires n <= start && n <= |lines|
    ensures Headings(t, lines, start, n) == []
  {
    if n > 0 {
      NoneBeforeStart(t, lines, start, n - 1);
    }
  }

  /** Headings finds exactly the lines that are headings. */
  lemma {:induction false} HeadingsFindsAll(t: Text, lines: seq<string>, start: nat, n: nat, h: Heading)
    requires n <= |lines|
    ensures h in Headings(t, lines, start, n) <==> h.line < n && HeadingAt(t, lines, start, h.line) == Some(h)
  {
    if n > 0 {
      HeadingsFindsAll(t, lines, start, n - 1, h);
    }
  }

  // ---------- Front matter and title ----------

  predicate IsRule(line: string) {
    TrimRight(line, {' ', '\t'}) == "---"
  }

  /** A rule is three hyphens, and blanks. */
  lemma RuleMeans(line: string)
    ensures IsRule(line) <==> |line| >= 3 && line[..3] == "---" && Blanks(line[3..])
  {
    var n := TrimRightMeans(line, {' ', '\t'});
    if |line| >= 3 && line[..3] == "---" && Blanks(line[3..]) {
      assert line[2] == '-' && forall i | 3 <= i < |line| :: line[i] == line[3..][i - 3];
    }
  }

  /** The first line from i on that is a rule, |lines| when there is none. */
  function NextRule(lines: seq<string>, i: nat): (k: nat)
    requires i <= |lines|
    ensures i <= k <= |lines| && (forall j | i <= j < k :: !IsRule(lines[j])) && (k < |lines| ==> IsRule(lines[k]))
    decreases |lines| - i
  {
    if i == |lines| || IsRule(lines[i]) then i else NextRule(lines, i + 1)
  }

  /** How many lines the front matter takes: from a first rule to the next one, if there are both. */
  function FrontMatter(lines: seq<string>): (n: nat)
    ensures n <= |lines|
  {
    if lines == [] || !IsRule(lines[0]) || NextRule(lines, 1) == |lines| then 0 else NextRule(lines, 1) + 1
  }

  /** Front matter of n lines is one that begins and ends with a rule, and has none between. */
  lemma FrontMatterMeans(lines: seq<string>, n: nat)
    requires n > 0
    ensures FrontMatter(lines) == n
       <==> && 2 <= n <= |lines| && IsRule(lines[0]) && IsRule(lines[n - 1])
            && forall i | 0 < i < n - 1 :: !IsRule(lines[i])
  {
    hide IsRule;
  }

  /** The title the lines between the rules give, the last one winning. */
  function TitleField(t: Text, fields: seq<string>): string {
    if fields == [] then ""
    else
      var line := fields[|fields| - 1];
      var colon := IndexOf(line, ':');
      if colon < |line| && TrimSpace(line[..colon]) == "title" then t.unquote(TrimSpace(line[colon + 1..]))
      else TitleField(t, fields[..|fields| - 1])
  }

  /** The line is a field called title, and value is what follows its first colon. */
  ghost predicate GivesTitle(line: string, value: string) {
    exists key :: line == key + ":" + value && ':' !in key && TrimSpace(key) == "title"
  }

  lemma GivesTitleMeans(line: string)
    ensures var colon := IndexOf(line, ':');
            && (colon < |line| && TrimSpace(line[..colon]) == "title" ==> GivesTitle(line, line[colon + 1..]))
            && forall value | GivesTitle(line, value) ::
                 colon < |line| && TrimSpace(line[..colon]) == "title" && line[colon + 1..] == value
  {
    hide TrimSpace, IndexOf, GivesTitle;
    var colon := IndexOf(line, ':');
    if colon < |line| && TrimSpace(line[..colon]) == "title" {
      CutsTitle(line, line[..colon], line[colon + 1..]);
    }
    forall value | GivesTitle(line, value)
      ensures colon < |line| && TrimSpace(line[..colon]) == "title" && line[colon + 1..] == value
    {
      TitleCut(line, value);
    }
  }

  lemma CutsTitle(line: string, key: string, value: string)
    requires ':' !in key && TrimSpace(key) == "title" && |line| > |key| && line[|key|] == ':'
    requires line[..|key|] == key && line[|key| + 1..] == value
    ensures GivesTitle(line, value)
  {
    hide TrimSpace;
    assert line == key + ":" + value;
  }

  lemma TitleCut(line: string, value: string)
    requires GivesTitle(line, value)
    ensures var colon := IndexOf(line, ':');
            colon < |line| && TrimSpace(line[..colon]) == "title" && line[colon + 1..] == value
  {
    hide TrimSpace, IndexOf;
    var key :| line == key + ":" + value && ':' !in key && TrimSpace(key) == "title";
    CutAt(key, ':', value);
    assert line[..|key|] == key;
  }

  /** The last field called title gives it; without one it is empty. */
  lemma {:induction false} TitleFieldMeans(t: Text, fields: seq<string>)
    ensures (forall line, value | line in fields :: !GivesTitle(line, value)) ==> TitleField(t, fields) == ""
    ensures forall i, value | 0 <= i < |fields| && GivesTitle(fields[i], value)
                              && forall j, other | i < j < |fields| :: !GivesTitle(fields[j], other) ::
              TitleField(t, fields) == t.unquote(TrimSpace(value))
  {
    hide TrimSpace, IndexOf, GivesTitle;
    if fields != [] {
      var n := |fields| - 1;
      GivesTitleMeans(fields[n]);
      TitleFieldMeans(t, fields[..n]);
    }
  }

  /** splitFrontmatter: the lines of a leading YAML block, and its title. */
  method SplitFrontMatter(t: Text, lines: seq<string>) returns (n: nat, title: string)
    ensures n == FrontMatter(lines)
    ensures title == if n == 0 then "" else TitleField(t, lines[1..n - 1])
  {
    hide TrimSpace, TrimRight, IndexOf, IsRule;
    if |lines| == 0 || !IsRule(lines[0]) {
      return 0, "";
    }
    for i := 1 to |lines|
      invariant NextRule(lines, 1) == NextRule(lines, i)
    {
      if IsRule(lines[i]) {
        title := "";
        for j := 1 to i
          invariant title == TitleField(t, lines[1..j])
        {
          assert lines[1..j + 1][..j - 1] == lines[1..j];
          var line := lines[j];
          var colon := IndexOf(line, ':');
          if colon < |line| && TrimSpace(line[..colon]) == "title" {
            title := t.unquote(TrimSpace(line[colon + 1..]));
          }
        }
        return i + 1, title;
      }
    }
    return 0, "";
  }

  /** The first level-1 heading of hs, else the file's name. */
  function FirstTitle(t: Text, path: string, hs: seq<Heading>): string {
    if hs == [] then t.fileTitle(path) else if hs[0].level == 1 then hs[0].text else FirstTitle(t, path, hs[1..])
  }

  /** The first of the headings that is of level 1 gives the title, else the file's name does. */
  lemma {:induction false} FirstTitleMeans(t: Text, path: string, hs: seq<Heading>)
    ensures (forall h <- hs :: h.level != 1) ==> FirstTitle(t, path, hs) == t.fileTitle(path)
    ensures forall k | 0 <= k < |hs| && hs[k].level == 1 && (forall j | 0 <= j < k :: hs[j].level != 1) ::
              FirstTitle(t, path, hs) == hs[k].text
  {
    if hs != [] {
      FirstTitleMeans(t, path, hs[1..]);
      forall k | 0 < k < |hs| && hs[k].level == 1 && (forall j | 0 <= j < k :: hs[j].level != 1)
        ensures FirstTitle(t, path, hs) == hs[k].text
      {
        assert hs[1..][k - 1] == hs[k] && hs[0].level != 1;
      }
    }
  }

  /** docTitle: the front matter's title, else the first level-1 heading, else the file's name. */
  function TitleOf(t: Text, path: string, lines: seq<string>): string {
    var start := FrontMatter(lines);
    var title := if start == 0 then "" else TitleField(t, lines[1..start - 1]);
    t.stripControl(if title != "" then title
                   else FirstTitle(t, path, Headings(t, lines, start, |lines|)))
  }

  /** deriveTitle, over the lines after the front matter, which takes start of them. */
  method DeriveTitle(t: Text, path: string, lines: seq<string>, start: nat) returns (title: string)
    requires start <= |lines|
    ensures title == FirstTitle(t, path, Headings(t, lines, start, |lines|))
  {
    var fence: Option<Fence> := None;
    NoneBeforeStart(t, lines, start, start);
    for i := start to |lines|
      invariant fence == FenceAt(lines, start, i)
      invariant NoLevelOne(Headings(t, lines, start, i))
    {
      var line := lines[i];
      var delim := FenceDelim(line);
      if delim.Some? {
        if fence.None? {
          fence := delim;
        } else if IsFenceClose(line, fence.value) {
          fence := None;
        }
        continue;
      }
      if fence.Some? {
        continue;
      }
      var m := t.atx(line);
      if m.Some? && m.value.level == 1 {
        var h := Heading(i, 1, m.value.text);
        var rest := MoreHeadings(t, lines, start, i + 1, |lines|);
        FirstLevelOne(t, path, Headings(t, lines, start, i), h, rest);
        return m.value.text;
      }
    }
    var hs := Headings(t, lines, start, |lines|);
    assert hs + [] == hs;
    SkipToTitle(t, path, hs, []);
    title := t.fileTitle(path);
  }

  predicate NoLevelOne(hs: seq<Heading>) {
    forall h <- hs :: h.level != 1
  }

  lemma {:induction false} MoreHeadings(t: Text, lines: seq<string>, start: nat, i: nat, n: nat)
    returns (rest: seq<Heading>)
    requires i <= n <= |lines|
    ensures Headings(t, lines, start, n) == Headings(t, lines, start, i) + rest
  {
    if i == n {
      rest := [];
    } else {
      rest := MoreHeadings(t, lines, start, i, n - 1);
      if HeadingAt(t, lines, start, n - 1).Some? {
        rest := rest + [HeadingAt(t, lines, start, n - 1).value];
      }
    }
  }

  lemma {:induction false} SkipToTitle(t: Text, path: string, before: seq<Heading>, rest: seq<Heading>)
    requires NoLevelOne(before)
    ensures FirstTitle(t, path, before + rest) == FirstTitle(t, path, rest)
  {
    if before == [] {
      assert before + rest == rest;
    } else {
      assert (before + rest)[1..] == before[1..] + rest;
      SkipToTitle(t, path, before[1..], rest);
    }
  }

  lemma FirstLevelOne(t: Text, path: string, before: seq<Heading>, h: Heading, rest: seq<Heading>)
    requires NoLevelOne(before) && h.level == 1
    ensures FirstTitle(t, path, before + [h] + rest) == h.text
  {
    assert before + [h] + rest == before + ([h] + rest);
    SkipToTitle(t, path, before, [h] + rest);
  }

  /** docTitle, as it runs. */
  method DocTitle(t: Text, path: string, lines: seq<string>) returns (title: string)
    ensures title == TitleOf(t, path, lines)
  {
    var start;
    start, title := SplitFrontMatter(t, lines);
    if title == "" {
      title := DeriveTitle(t, path, lines, start);
    }
    title := t.stripControl(title);
  }

  // ---------- Sections ----------

  datatype Section = Section(docPath: string, topic: string, title: string, heading: string,
                             headingPath: seq<string>, anchor: string, level: nat,
                             lineStart: nat, lineEnd: nat, body: string)

  /** topicOf: the first segment of a path, "" for a top-level file. */
  function TopicOf(path: string): string {
    var i := IndexOf(path, '/');
    if i < |path| then path[..i] else ""
  }

  /** A path is its topic, a slash and the rest, or has no slash and no topic. */
  lemma TopicMeans(path: string)
    ensures if '/' in path then exists rest :: path == TopicOf(path) + "/" + rest && '/' !in TopicOf(path)
            else TopicOf(path) == ""
  {
    var i := IndexOf(path, '/');
    if i < |path| {
      assert path == TopicOf(path) + "/" + path[i + 1..] && '/' !in path[..i];
    } else {
      assert path[..i] == path;
    }
  }

  /** A document as ParseDoc reads it: its lines, and how many of them the front matter takes. */
  datatype Doc = Doc(path: string, title: string, lines: seq<string>, start: nat) {
    predicate Valid() {
      start <= |lines|
    }

    /** What lines a to b - 1 hold, without the newlines they end in. */
    function Body(a: nat, b: nat): string
      requires a <= b <= |lines|
    {
      TrimRight(JoinLines(lines[a..b]), {'\n'})
    }
  }

  /** The body of lines is the lines joined, but for the newlines at their end. */
  lemma BodyMeans(d: Doc, a: nat, b: nat) returns (n: nat)
    requires a <= b <= |d.lines|
    ensures var text := JoinLines(d.lines[a..b]);
            && n <= |text| && d.Body(a, b) == text[..n] && (n > 0 ==> text[n - 1] != '\n')
            && forall i | n <= i < |text| :: text[i] == '\n'
  {
    n := TrimRightMeans(JoinLines(d.lines[a..b]), {'\n'});
  }

  /** The breadcrumb stack after a heading: its ancestors by level, "" where a level is skipped. */
  function Push(stack: seq<string>, h: Heading): (s: seq<string>)
    ensures |s| == h.level && s[h.level - 1] == h.text
    ensures forall j | 0 <= j < h.level - 1 :: s[j] == if j < |stack| then stack[j] else ""
  {
    var kept := if h.level - 1 < |stack| then stack[..h.level - 1] else stack;
    kept + seq(h.level - 1 - |kept|, _ => "") + [h.text]
  }

  function Stack(hs: seq<Heading>): seq<string> {
    if hs == [] then [] else Push(Stack(hs[..|hs| - 1]), hs[|hs| - 1])
  }

  /** The breadcrumb of a section: the title, then the headings it is under, unless the first is the title. */
  function Crumb(t: Text, title: string, stack: seq<string>): seq<string> {
    var crumb := NonEmpty(stack);
    if crumb == [] || !t.equalFold(crumb[0], title) then [title] + crumb else crumb
  }

  /** It is what of the stack is not empty, after the title unless that comes first in it. */
  lemma CrumbMeans(t: Text, title: string, stack: seq<string>)
    ensures Crumb(t, title, stack) == NonEmpty(stack)
       <==> NonEmpty(stack) != [] && t.equalFold(NonEmpty(stack)[0], title)
    ensures Crumb(t, title, stack) in {NonEmpty(stack), [title] + NonEmpty(stack)}
  {
    assert |[title] + NonEmpty(stack)| > |NonEmpty(stack)|;
  }

  function Elements(s: seq<string>): set<string> {
    set a | a in s
  }

  /** The anchors of headings in order, each avoiding those before it. */
  ghost function AnchorsOf(t: Text, hs: seq<Heading>): (anchors: seq<string>)
    ensures |anchors| == |hs|
  {
    if hs == [] then []
    else
      var before := AnchorsOf(t, hs[..|hs| - 1]);
      before + [Anchor(Elements(before), SlugOf(t.lower(hs[|hs| - 1].text)))]
  }

  /** openSection: the section being read. */
  datatype Open = Open(heading: string, level: nat, anchor: string, path: seq<string>, startLine: nat, bodyStart: nat)

  /** What comes before the first heading, or else the section the last of the headings hs opens. */
  ghost function Current(t: Text, d: Doc, hs: seq<Heading>): Open {
    if hs == [] then Open(d.title, 0, "", [d.title], d.start + 1, d.start)
    else
      var h := hs[|hs| - 1];
      Open(h.text, h.level, AnchorsOf(t, hs)[|hs| - 1], Crumb(t, d.title, Stack(hs)), h.line + 1, h.line)
  }

  /** The section cur is, once it ends at line end. */
  function Closing(d: Doc, cur: Open, end: nat): Section
    requires cur.bodyStart <= end <= |d.lines|
  {
    Section(d.path, TopicOf(d.path), d.title, cur.heading, cur.path, cur.anchor, cur.level, cur.startLine, end,
            d.Body(cur.bodyStart, end))
  }

  /** The sections the headings hs cut the lines before end into: a blank preamble is none. */
  ghost function Cut(t: Text, d: Doc, hs: seq<Heading>, end: nat): seq<Section>
    requires Ordered(hs, d.start, end) && end <= |d.lines|
    decreases |hs|
  {
    if hs == [] then if Blank(d.Body(d.start, end)) then [] else [Closing(d, Current(t, d, hs), end)]
    else Closed(t, d, hs) + [Closing(d, Current(t, d, hs), end)]
  }

  /** The sections before the one the last of the headings hs opens. */
  ghost function Closed(t: Text, d: Doc, hs: seq<Heading>): seq<Section>
    requires hs != [] ==> Ordered(hs[..|hs| - 1], d.start, hs[|hs| - 1].line) && hs[|hs| - 1].line <= |d.lines|
    decreases |hs|, -1
  {
    if hs == [] then [] else Cut(t, d, hs[..|hs| - 1], hs[|hs| - 1].line)
  }

  ghost function Sections(t: Text, d: Doc): seq<Section>
    requires d.Valid()
  {
    HeadingsOrdered(t, d.lines, d.start, |d.lines|);
    Cut(t, d, Headings(t, d.lines, d.start, |d.lines|), |d.lines|)
  }

  /** flush: closes the open section at line end, unless it is a blank preamble. */
  method Flush(t: Text, d: Doc, cur: Open, sections: seq<Section>, end: nat, ghost hs: seq<Heading>)
    returns (sections': seq<Section>)
    requires Ordered(hs, d.start, end) && end <= |d.lines|
    requires sections == Closed(t, d, hs) && cur == Current(t, d, hs)
    ensures sections' == Cut(t, d, hs, end)
  {
    var body := d.Body(cur.bodyStart, end);
    if cur.level == 0 && Blank(body) {
      return sections;
    }
    sections' := sections + [Section(d.path, TopicOf(d.path), d.title, cur.heading, cur.path, cur.anchor, cur.level,
                                     cur.startLine, end, body)];
  }

  lemma {:induction false} FewElements(s: seq<string>)
    ensures |Elements(s)| <= |s|
  {
    if s != [] {
      FewElements(s[..|s| - 1]);
      assert s == s[..|s| - 1] + [s[|s| - 1]];
      OneMoreElement(s[..|s| - 1], s[|s| - 1]);
    }
  }

  lemma OneMoreElement(s: seq<string>, a: string)
    ensures Elements(s + [a]) == Elements(s) + {a}
  {
  }

  /** One more heading: its place in the breadcrumb, and its anchor. */
  method Enter(t: Text, d: Doc, h: Heading, stack: seq<string>, usedAnchors: set<string>, ghost hs: seq<Heading>)
    returns (cur: Open, stack': seq<string>, usedAnchors': set<string>)
    requires |hs| < MAX_INT && stack == Stack(hs) && usedAnchors == Elements(AnchorsOf(t, hs))
    ensures stack' == Stack(hs + [h]) && usedAnchors' == Elements(AnchorsOf(t, hs + [h]))
    ensures cur == Current(t, d, hs + [h])
  {
    assert (hs + [h])[..|hs|] == hs;
    stack' := Push(stack, h);
    FewElements(AnchorsOf(t, hs));
    OneMoreElement(AnchorsOf(t, hs), Anchor(usedAnchors, SlugOf(t.lower(h.text))));
    var slug := Slugify(t.lower(h.text));
    var anchor;
    anchor, usedAnchors' := UniqueAnchor(usedAnchors, slug);
    cur := Open(h.text, h.level, anchor, Crumb(t, d.title, stack'), h.line + 1, h.line);
  }

  /** What ParseDoc keeps: the sections closed, the one open, the breadcrumb stack and the anchors used. */
  datatype Progress = Progress(sections: seq<Section>, cur: Open, stack: seq<string>, usedAnchors: set<string>)

  /** The same, and the fence open. */
  datatype Reader = Reader(fence: Option<Fence>, state: Progress)

  /** The state after the headings hs. */
  ghost function ProgressAfter(t: Text, d: Doc, hs: seq<Heading>): Progress
    requires hs != [] ==> Ordered(hs[..|hs| - 1], d.start, hs[|hs| - 1].line) && hs[|hs| - 1].line <= |d.lines|
  {
    Progress(Closed(t, d, hs), Current(t, d, hs), Stack(hs), Elements(AnchorsOf(t, hs)))
  }

  /** Closes the open section at the heading h, and opens the one it starts. */
  method OpenSection(t: Text, d: Doc, h: Heading, s: Progress, ghost hs: seq<Heading>) returns (s': Progress)
    requires |hs| < MAX_INT && Ordered(hs, d.start, h.line) && h.line <= |d.lines| && s == ProgressAfter(t, d, hs)
    ensures (hs + [h])[..|hs|] == hs && s' == ProgressAfter(t, d, hs + [h])
  {
    var sections := Flush(t, d, s.cur, s.sections, h.line, hs);
    var cur, stack, usedAnchors := Enter(t, d, h, s.stack, s.usedAnchors, hs);
    assert (hs + [h])[..|hs|] == hs;
    s' := Progress(sections, cur, stack, usedAnchors);
  }

  /** The state before line i. */
  ghost function ProgressBefore(t: Text, d: Doc, i: nat): Progress
    requires d.start <= i <= |d.lines|
  {
    HeadingsOrdered(t, d.lines, d.start, i);
    ProgressAfter(t, d, Headings(t, d.lines, d.start, i))
  }

  /** What ParseDoc keeps before line i. */
  ghost function ReaderBefore(t: Text, d: Doc, i: nat): Reader
    requires d.start <= i <= |d.lines|
  {
    Reader(FenceAt(d.lines, d.start, i), ProgressBefore(t, d, i))
  }

  /** The preamble is open, and nothing else is known. */
  method Begin(t: Text, d: Doc) returns (r: Reader)
    requires d.Valid()
    ensures r == ReaderBefore(t, d, d.start)
  {
    r := Reader(None, Progress([], Open(d.title, 0, "", [d.title], d.start + 1, d.start), [], {}));
    NoneBeforeStart(t, d.lines, d.start, d.start);
  }

  /** The loop of ParseDoc over one line. */
  method ReadLine(t: Text, d: Doc, i: nat, r: Reader) returns (r': Reader)
    requires d.start <= i < |d.lines| < MAX_INT && r == ReaderBefore(t, d, i)
    ensures r' == ReaderBefore(t, d, i + 1)
  {
    var line := d.lines[i];
    var delim := FenceDelim(line);
    if delim.Some? {
      if r.fence.None? {
        return r.(fence := delim);
      } else if IsFenceClose(line, r.fence.value) {
        return r.(fence := None);
      }
      return r;
    }
    if r.fence.Some? {
      return r;
    }
    var hm := t.atx(line);
    if hm.None? {
      return r;
    }
    HeadingsOrdered(t, d.lines, d.start, i);
    var h := Heading(i, hm.value.level, hm.value.text);
    var s := OpenSection(t, d, h, r.state, Headings(t, d.lines, d.start, i));
    r' := r.(state := s);
  }

  /** ParseDoc, from the document's lines: one pass over them that keeps the open section and fence. */
  method ParseLines(t: Text, d: Doc) returns (sections: seq<Section>)
    requires d.Valid() && |d.lines| < MAX_INT
    ensures sections == Sections(t, d)
  {
    hide ReaderBefore;
    var r := Begin(t, d);
    for i := d.start to |d.lines|
      invariant r == ReaderBefore(t, d, i)
    {
      r := ReadLine(t, d, i, r);
    }
    sections := Finish(t, d, r);
  }

  /** Closes the last section. */
  method Finish(t: Text, d: Doc, r: Reader) returns (sections: seq<Section>)
    requires d.Valid() && r == ReaderBefore(t, d, |d.lines|)
    ensures sections == Sections(t, d)
  {
    HeadingsOrdered(t, d.lines, d.start, |d.lines|);
    var hs := Headings(t, d.lines, d.start, |d.lines|);
    sections := Flush(t, d, r.state.cur, r.state.sections, |d.lines|, hs);
  }
}
