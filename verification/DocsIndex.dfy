/**
 The search index over sections (NewIndex, buildChunk and splitLargeBody in internal/docs/search.go). Splitting
 text into tokens, a matter of regular expressions, is a parameter; scores are reals.
 */
module DocsIndex {
  import opened Collections
  import opened DocsParse
  import opened Strings

  const TITLE_BOOST := 3
  const HEADING_BOOST := 3
  const PATH_BOOST := 2
  const MAX_CHUNK_CHARS := 2000

  /** tokenize: the words of a text, and its technical tokens. normalize is normalizePhrase. */
  datatype Tokens = Tokens(words: seq<string>, technical: seq<string>)

  datatype Language = Language(tokenize: string -> Tokens, pathTokens: string -> string, normalize: string -> string)

  // ---------- Splitting large sections ----------

  /** strings.Split at "\n\n". */
  function Paragraphs(s: string): (ps: seq<string>)
    ensures ps != []
  {
    if |s| < 2 then [s]
    else if s[0] == '\n' && s[1] == '\n' then [""] + Paragraphs(s[2..])
    else
      var rest := Paragraphs(s[1..]);
      [[s[0]] + rest[0]] + rest[1..]
  }

  /** Somewhere two newlines follow each other. */
  predicate HasBreak(s: string) {
    exists i | 0 <= i < |s| - 1 :: s[i] == '\n' && s[i + 1] == '\n'
  }

  lemma BreakAhead(c: char, s: string)
    ensures HasBreak([c] + s) <==> (c == '\n' && s != "" && s[0] == '\n') || HasBreak(s)
  {
    if i :| 0 <= i < |s| - 1 && s[i] == '\n' && s[i + 1] == '\n' {
      assert ([c] + s)[i + 1] == '\n' && ([c] + s)[i + 2] == '\n';
    }
    if i :| 0 <= i < |s| && ([c] + s)[i] == '\n' && ([c] + s)[i + 1] == '\n' {
      if i > 0 {
        assert s[i - 1] == '\n' && s[i] == '\n';
      }
    }
    if c == '\n' && s != "" && s[0] == '\n' {
      assert ([c] + s)[0] == '\n' && ([c] + s)[1] == '\n';
    }
  }

  /** No part has a break in it, nor one that its end makes with the break after it. */
  predicate Unbreakable(parts: seq<string>) {
    forall i | 0 <= i < |parts| :: !HasBreak(if i < |parts| - 1 then parts[i] + "\n" else parts[i])
  }

  /** The paragraphs joined are the text, and each ends at the first break after it begins. */
  lemma {:induction false} ParagraphsMeans(s: string)
    ensures Join(Paragraphs(s), "\n\n") == s && Unbreakable(Paragraphs(s))
  {
    hide HasBreak;
    if |s| < 2 {
      NoBreak(s);
    } else if s[0] == '\n' && s[1] == '\n' {
      ParagraphsMeans(s[2..]);
      NoBreak("\n");
      var ps := Paragraphs(s[2..]);
      assert ([""] + ps)[1..] == ps && s == "\n\n" + s[2..] && "" + "\n" == "\n";
    } else {
      ParagraphsMeans(s[1..]);
      var rest := Paragraphs(s[1..]);
      hide Paragraphs, Unbreakable;
      JoinShifted(s[0], rest);
      assert s == [s[0]] + s[1..];
      FirstCharacter(s[0], rest);
    }
  }

  lemma NoBreak(s: string)
    requires |s| < 2
    ensures !HasBreak(s)
  {
  }

  /** A first character that starts no break goes to the first paragraph. */
  lemma FirstCharacter(c: char, rest: seq<string>)
    requires rest != [] && Unbreakable(rest)
    requires var joined := Join(rest, "\n\n"); joined != "" && !(c == '\n' && joined[0] == '\n')
    ensures Unbreakable([[c] + rest[0]] + rest[1..])
  {
    hide HasBreak, Join;
    var ps := [[c] + rest[0]] + rest[1..];
    var end := if |rest| > 1 then rest[0] + "\n" else rest[0];
    FirstOfJoin(rest);
    BreakAhead(c, end);
    assert [c] + (rest[0] + "\n") == [c] + rest[0] + "\n";
    assert !HasBreak(end);
    forall i | 0 < i < |ps|
      ensures ps[i] == rest[i]
    {
    }
  }

  lemma JoinShifted(c: char, parts: seq<string>)
    requires parts != []
    ensures Join([[c] + parts[0]] + parts[1..], "\n\n") == [c] + Join(parts, "\n\n")
  {
    assert ([[c] + parts[0]] + parts[1..])[1..] == parts[1..];
  }

  /** What the parts joined start with, when there is anything. */
  lemma FirstOfJoin(parts: seq<string>)
    requires parts != []
    ensures var joined, end := Join(parts, "\n\n"), if |parts| > 1 then parts[0] + "\n" else parts[0];
            end != "" ==> joined != "" && joined[0] == end[0]
  {
    if |parts| > 1 {
      assert Join(parts, "\n\n") == parts[0] + "\n\n" + Join(parts[1..], "\n\n");
    }
  }

  /** A text without its line breaks. */
  function Unbroken(s: string): string {
    if s == "" then "" else (if s[0] == '\n' then "" else [s[0]]) + Unbroken(s[1..])
  }

  function UnbrokenAll(parts: seq<string>): string {
    if parts == [] then "" else Unbroken(parts[0]) + UnbrokenAll(parts[1..])
  }

  lemma {:induction false} UnbrokenConcat(a: string, b: string)
    ensures Unbroken(a + b) == Unbroken(a) + Unbroken(b)
  {
    if a == "" {
      assert a + b == b;
    } else {
      assert (a + b)[1..] == a[1..] + b;
      UnbrokenConcat(a[1..], b);
    }
  }

  lemma {:induction false} UnbrokenSnoc(parts: seq<string>, p: string)
    ensures UnbrokenAll(parts + [p]) == UnbrokenAll(parts) + Unbroken(p)
  {
    if parts == [] {
      assert [p][1..] == [];
    } else {
      assert (parts + [p])[1..] == parts[1..] + [p];
      UnbrokenSnoc(parts[1..], p);
    }
  }

  lemma {:induction false} ParagraphsKeepText(s: string)
    ensures UnbrokenAll(Paragraphs(s)) == Unbroken(s)
  {
    if |s| < 2 {
      assert [s][1..] == [];
    } else if s[0] == '\n' && s[1] == '\n' {
      ParagraphsKeepText(s[2..]);
      assert s[1..][1..] == s[2..];
    } else {
      var rest := Paragraphs(s[1..]);
      ParagraphsKeepText(s[1..]);
      assert ([s[0]] + rest[0])[1..] == rest[0];
      assert ([[s[0]] + rest[0]] + rest[1..])[1..] == rest[1..];
    }
  }

  /** The windows filled so far, and the one being filled. */
  datatype Filling = Filling(full: seq<string>, open: string)

  /** One paragraph more: a window that is begun is closed when the paragraph would take it over the limit. */
  function Fill(f: Filling, p: string): Filling {
    if f.open == "" then f.(open := p)
    else if |f.open| + |p| > MAX_CHUNK_CHARS then Filling(f.full + [f.open], p)
    else f.(open := f.open + "\n\n" + p)
  }

  function Filled(paras: seq<string>): Filling {
    if paras == [] then Filling([], "") else Fill(Filled(paras[..|paras| - 1]), paras[|paras| - 1])
  }

  function Closed(f: Filling): seq<string> {
    f.full + if f.open == "" then [] else [f.open]
  }

  /** The windows of a body: itself, when it is small or has nothing but breaks. */
  function Windows(body: string): seq<string> {
    if |body| <= MAX_CHUNK_CHARS || Closed(Filled(Paragraphs(body))) == [] then [body]
    else Closed(Filled(Paragraphs(body)))
  }

  /** splitLargeBody. */
  method SplitLargeBody(body: string) returns (windows: seq<string>)
    ensures windows == Windows(body)
  {
    hide Paragraphs;
    if |body| <= MAX_CHUNK_CHARS {
      return [body];
    }
    var paras := Paragraphs(body);
    windows := [];
    var b := "";
    for i := 0 to |paras|
      invariant Filled(paras[..i]) == Filling(windows, b)
    {
      var p := paras[i];
      assert paras[..i + 1][..i] == paras[..i];
      if |b| > 0 && |b| + |p| > MAX_CHUNK_CHARS {
        windows := windows + [b];
        b := "";
      }
      if |b| > 0 {
        b := b + "\n\n";
      }
      b := b + p;
    }
    assert paras[..|paras|] == paras;
    if |b| > 0 {
      windows := windows + [b];
    }
    if |windows| == 0 {
      return [body];
    }
  }

  // ---------- What the windows are ----------

  function WithoutBlank(paras: seq<string>): seq<string> {
    if paras == [] then []
    else WithoutBlank(paras[..|paras| - 1]) + if paras[|paras| - 1] == "" then [] else [paras[|paras| - 1]]
  }

  /** A window's paragraphs begin with one that is not blank, and are over the limit only by a break, or when alone. */
  predicate Run(run: seq<string>) {
    run != [] && run[0] != "" && (|run| == 1 || |Join(run, "\n\n")| <= MAX_CHUNK_CHARS + 2)
  }

  /** Each window joins a run of paragraphs, and the first paragraph of the next would have taken it over the limit. */
  ghost predicate Greedy(windows: seq<string>, runs: seq<seq<string>>) {
    && |windows| == |runs|
    && (forall i | 0 <= i < |runs| :: Run(runs[i]) && windows[i] == Join(runs[i], "\n\n"))
    && forall i | 0 <= i < |runs| - 1 :: |windows[i]| + |runs[i + 1][0]| > MAX_CHUNK_CHARS
  }

  lemma RejoinedSnoc(paras: seq<string>, p: string)
    ensures Join(paras + [p], "\n\n") == if paras == [] then p else Join(paras, "\n\n") + "\n\n" + p
  {
    if paras == [] {
      assert paras + [p] == [p];
    } else {
      JoinLast(paras + [p], "\n\n");
      assert (paras + [p])[..|paras|] == paras;
    }
  }

  lemma WithoutBlankSnoc(paras: seq<string>, p: string)
    ensures WithoutBlank(paras + [p]) == WithoutBlank(paras) + if p == "" then [] else [p]
  {
    assert (paras + [p])[..|paras|] == paras;
  }

  /** The paragraphs of the open window: none when nothing but blank ones came since the last was closed. */
  ghost predicate Opened(f: Filling, runs: seq<seq<string>>, open: seq<string>) {
    && Greedy(f.full, runs) && f.open == Join(open, "\n\n") && (open == [] <==> f.open == "")
    && (open == [] || Run(open))
    && (open != [] && runs != [] ==> |f.full[|runs| - 1]| + |open[0]| > MAX_CHUNK_CHARS)
    && (open == [] && runs != [] ==> |f.full[|runs| - 1]| > MAX_CHUNK_CHARS)
  }

  /** A paragraph alone in its window, or none when it is blank. */
  function Alone(p: string): seq<string> {
    if p == "" then [] else [p]
  }

  lemma AloneRejoined(p: string)
    ensures Join(Alone(p), "\n\n") == p && (Alone(p) == [] || Run(Alone(p)))
  {
  }

  lemma OpensRun(f: Filling, p: string, runs: seq<seq<string>>)
    requires Greedy(f.full, runs)
    requires runs != [] ==> |f.full[|runs| - 1]| + |p| > MAX_CHUNK_CHARS
    ensures Opened(Filling(f.full, p), runs, Alone(p))
  {
    hide Join, Greedy, Run;
    AloneRejoined(p);
    GreedyLength(f.full, runs);
  }

  lemma GreedyLength(windows: seq<string>, runs: seq<seq<string>>)
    requires Greedy(windows, runs)
    ensures |windows| == |runs|
  {
  }

  lemma ClosesRun(f: Filling, runs: seq<seq<string>>, open: seq<string>)
    requires Opened(f, runs, open) && open != []
    ensures Greedy(f.full + [f.open], runs + [open])
  {
    hide Join, Run;
  }

  lemma ExtendsRun(f: Filling, p: string, runs: seq<seq<string>>, open: seq<string>)
    requires Opened(f, runs, open) && open != [] && |f.open| + |p| <= MAX_CHUNK_CHARS
    ensures Opened(Filling(f.full, f.open + "\n\n" + p), runs, open + [p])
  {
    hide Join, Greedy;
    RejoinedSnoc(open, p);
    GreedyLength(f.full, runs);
    assert (open + [p])[0] == open[0];
  }

  lemma AloneAdds(all: seq<string>, p: string)
    ensures WithoutBlank(all + Alone(p)) == WithoutBlank(all) + Alone(p)
    ensures WithoutBlank(all + [p]) == WithoutBlank(all) + Alone(p)
  {
    WithoutBlankSnoc(all, p);
    if p == "" {
      assert all + [] == all;
    }
  }

  lemma FillsRun(f: Filling, p: string, runs: seq<seq<string>>, open: seq<string>)
    returns (runs': seq<seq<string>>, open': seq<string>)
    requires Opened(f, runs, open)
    ensures Opened(Fill(f, p), runs', open')
    ensures WithoutBlank(Flatten(runs') + open') == WithoutBlank(Flatten(runs) + open) + Alone(p)
  {
    OpenedTells(f, runs, open);
    hide Join, WithoutBlank, Flatten, Opened, Greedy, Alone;
    AloneAdds(Flatten(runs) + open, p);
    if f.open == "" {
      runs', open' := runs, Alone(p);
      assert Flatten(runs) + open == Flatten(runs);
      OpensRun(f, p, runs);
    } else if |f.open| + |p| > MAX_CHUNK_CHARS {
      runs', open' := runs + [open], Alone(p);
      FlattenSnoc(runs, open);
      ClosesRun(f, runs, open);
      assert (f.full + [f.open])[|runs|] == f.open;
      OpensRun(Filling(f.full + [f.open], ""), p, runs');
    } else {
      runs', open' := runs, open + [p];
      ExtendsRun(f, p, runs, open);
      assert Flatten(runs) + (open + [p]) == Flatten(runs) + open + [p];
    }
  }

  lemma OpenedTells(f: Filling, runs: seq<seq<string>>, open: seq<string>)
    requires Opened(f, runs, open)
    ensures Greedy(f.full, runs) && |f.full| == |runs| && (open == [] <==> f.open == "")
    ensures open == [] && runs != [] ==> |f.full[|runs| - 1]| > MAX_CHUNK_CHARS
  {
  }

  lemma NoParagraphs()
    ensures Join([], "\n\n") == "" && WithoutBlank([]) == [] && Flatten<string>([]) == []
  {
  }

  lemma {:induction false} FilledRuns(paras: seq<string>) returns (runs: seq<seq<string>>, open: seq<string>)
    ensures Opened(Filled(paras), runs, open) && WithoutBlank(Flatten(runs) + open) == WithoutBlank(paras)
  {
    hide Join, WithoutBlank, Flatten, Fill;
    NoParagraphs();
    if paras == [] {
      runs, open := [], [];
      assert Flatten(runs) + open == [];
    } else {
      var n := |paras| - 1;
      runs, open := FilledRuns(paras[..n]);
      runs, open := FillsRun(Filled(paras[..n]), paras[n], runs, open);
      WithoutBlankSnoc(paras[..n], paras[n]);
      assert paras[..n] + [paras[n]] == paras;
    }
  }

  /**
   The windows of a body over the limit are whole paragraphs, in order and none but blank ones left out, as many in
   each as the limit allows.
   */
  lemma WindowsAreRuns(body: string) returns (runs: seq<seq<string>>)
    requires Windows(body) != [body]
    ensures Greedy(Windows(body), runs) && WithoutBlank(Flatten(runs)) == WithoutBlank(Paragraphs(body))
  {
    hide Join, WithoutBlank, Flatten, Paragraphs, Filled, Opened, Greedy;
    var open;
    runs, open := FilledRuns(Paragraphs(body));
    var f := Filled(Paragraphs(body));
    OpenedTells(f, runs, open);
    if open == [] {
      assert Closed(f) == f.full;
      assert Flatten(runs) + open == Flatten(runs);
    } else {
      ClosesRun(f, runs, open);
      FlattenSnoc(runs, open);
      runs := runs + [open];
    }
  }

  lemma {:induction false} FilledKeepsText(paras: seq<string>)
    ensures UnbrokenAll(Closed(Filled(paras))) == UnbrokenAll(paras)
  {
    hide Fill, Unbroken, UnbrokenAll;
    NothingUnbroken();
    if paras == [] {
      assert Closed(Filled(paras)) == [];
    } else {
      var n := |paras| - 1;
      FilledKeepsText(paras[..n]);
      FillKeepsText(Filled(paras[..n]), paras[n]);
      UnbrokenSnoc(paras[..n], paras[n]);
      assert paras[..n] + [paras[n]] == paras;
    }
  }

  lemma NothingUnbroken()
    ensures UnbrokenAll([]) == "" && Unbroken("") == ""
  {
  }

  lemma FillKeepsText(f: Filling, p: string)
    ensures UnbrokenAll(Closed(Fill(f, p))) == UnbrokenAll(Closed(f)) + Unbroken(p)
  {
    hide Unbroken, UnbrokenAll;
    NothingUnbroken();
    TwoBreaks();
    assert f.full + [] == f.full && f.full + [f.open] + [] == f.full + [f.open];
    UnbrokenSnoc(f.full, f.open);
    if f.open == "" {
      UnbrokenSnoc(f.full, p);
    } else if |f.open| + |p| > MAX_CHUNK_CHARS {
      UnbrokenSnoc(f.full + [f.open], p);
    } else {
      var both := f.open + "\n\n";
      UnbrokenSnoc(f.full, both + p);
      UnbrokenConcat(both, p);
      UnbrokenConcat(f.open, "\n\n");
      assert Unbroken(both) == Unbroken(f.open);
      assert UnbrokenAll(f.full) + (Unbroken(f.open) + Unbroken(p))
        == UnbrokenAll(f.full) + Unbroken(f.open) + Unbroken(p);
    }
  }

  lemma TwoBreaks()
    ensures Unbroken("\n\n") == ""
  {
    assert "\n\n"[1..] == "\n" && "\n"[1..] == "";
  }

  /** No text is lost or repeated, but for line breaks. */
  lemma WindowsKeepText(body: string)
    ensures Windows(body) != [] && UnbrokenAll(Windows(body)) == Unbroken(body)
  {
    hide Paragraphs, Filled;
    ParagraphsKeepText(body);
    FilledKeepsText(Paragraphs(body));
    assert [body][1..] == [];
  }

  // ---------- Windows over the limit ----------

  /** The paragraph makes a window over the limit: by itself, or joined to one by a break that was not counted. */
  predicate Exceeds(open: string, p: string) {
    |p| > MAX_CHUNK_CHARS
    || (open != "" && |open| + |p| <= MAX_CHUNK_CHARS < |open| + |"\n\n"| + |p|)
  }

  ghost predicate OverLimit(windows: seq<string>) {
    exists w <- windows :: |w| > MAX_CHUNK_CHARS
  }

  ghost predicate SomeExceeds(paras: seq<string>) {
    exists i | 0 <= i < |paras| :: Exceeds(Filled(paras[..i]).open, paras[i])
  }

  lemma OverLimitMore(windows: seq<string>, w: string)
    ensures OverLimit(windows + [w]) <==> OverLimit(windows) || |w| > MAX_CHUNK_CHARS
  {
    assert forall v :: v in windows + [w] <==> v in windows || v == w;
  }

  lemma FillExceeds(f: Filling, p: string)
    ensures OverLimit(Closed(Fill(f, p))) <==> OverLimit(Closed(f)) || Exceeds(f.open, p)
  {
    hide OverLimit;
    assert f.full + [] == f.full && f.full + [f.open] + [] == f.full + [f.open];
    OverLimitMore(f.full, f.open);
    OverLimitMore(f.full, p);
    OverLimitMore(f.full + [f.open], p);
    OverLimitMore(f.full, f.open + "\n\n" + p);
  }

  lemma SomeExceedsMore(paras: seq<string>, p: string)
    ensures SomeExceeds(paras + [p]) <==> SomeExceeds(paras) || Exceeds(Filled(paras).open, p)
  {
    hide Exceeds, Filled;
    var all, n := paras + [p], |paras|;
    assert all[..n] == paras && all[n] == p;
    assert forall i | 0 <= i < n :: all[..i] == paras[..i] && all[i] == paras[i];
    if SomeExceeds(paras) {
      var i :| 0 <= i < n && Exceeds(Filled(paras[..i]).open, paras[i]);
      assert Exceeds(Filled(all[..i]).open, all[i]);
    }
    if Exceeds(Filled(paras).open, p) {
      assert Exceeds(Filled(all[..n]).open, all[n]);
    }
  }

  lemma {:induction false} FilledExceeds(paras: seq<string>)
    ensures OverLimit(Closed(Filled(paras))) <==> SomeExceeds(paras)
  {
    hide Exceeds, Fill, SomeExceeds, OverLimit, Closed;
    NothingExceeds();
    if paras != [] {
      var n := |paras| - 1;
      FilledExceeds(paras[..n]);
      FillExceeds(Filled(paras[..n]), paras[n]);
      SomeExceedsMore(paras[..n], paras[n]);
      assert paras[..n] + [paras[n]] == paras;
    }
  }

  lemma NothingExceeds()
    ensures !SomeExceeds([]) && !OverLimit(Closed(Filled([])))
  {
  }

  lemma FillBlank(f: Filling, p: string)
    ensures |Closed(Fill(f, p))| == 0 <==> |Closed(f)| == 0 && p == ""
  {
  }

  /** Only breaks leave no window. */
  lemma {:induction false} FilledBlank(paras: seq<string>)
    ensures Closed(Filled(paras)) == [] <==> forall p <- paras :: p == ""
  {
    hide Fill;
    if paras != [] {
      var n := |paras| - 1;
      FilledBlank(paras[..n]);
      FillBlank(Filled(paras[..n]), paras[n]);
      assert Filled(paras) == Fill(Filled(paras[..n]), paras[n]);
      assert paras[n] in paras && forall p <- paras :: p in paras[..n] || p == paras[n];
      assert forall p <- paras[..n] :: p in paras;
    }
  }

  /**
   A window is over the limit if and only if the body, over it too, has nothing but breaks, or some paragraph is, or
   makes one of the window before it and the break between the two, which is not counted.
   */
  lemma OverLimitExactlyWhen(body: string)
    ensures OverLimit(Windows(body)) <==>
              && |body| > MAX_CHUNK_CHARS
              && ((forall p <- Paragraphs(body) :: p == "") || SomeExceeds(Paragraphs(body)))
  {
    hide Paragraphs, Filled, SomeExceeds;
    FilledExceeds(Paragraphs(body));
    FilledBlank(Paragraphs(body));
    assert body in [body];
  }

  lemma {:induction false} OneParagraph(p: string)
    requires '\n' !in p
    ensures Paragraphs(p) == [p]
  {
    if |p| >= 2 {
      OneParagraph(p[1..]);
      assert p[0] in p && [p[1..]][1..] == [] && [p[0]] + p[1..] == p;
    }
  }

  lemma {:induction false} FirstParagraph(p: string, rest: string)
    requires '\n' !in p
    ensures Paragraphs(p + "\n\n" + rest) == [p] + Paragraphs(rest)
  {
    var s := p + "\n\n" + rest;
    if p == "" {
      assert s[2..] == rest;
    } else {
      FirstParagraph(p[1..], rest);
      assert s[1..] == p[1..] + "\n\n" + rest;
      assert ([p[1..]] + Paragraphs(rest))[1..] == Paragraphs(rest) && p[0] in p && [p[0]] + p[1..] == p;
    }
  }

  /** Two paragraphs of a thousand characters are one window of two thousand and two. */
  lemma TwoParagraphs(p: string, q: string)
    requires '\n' !in p + q && |p| == |q| == 1000
    ensures Windows(p + "\n\n" + q) == [p + "\n\n" + q] && |p + "\n\n" + q| == MAX_CHUNK_CHARS + 2
    ensures Paragraphs(p + "\n\n" + q) == [p, q]
  {
    assert forall c :: c in p || c in q ==> c in p + q;
    FirstParagraph(p, q);
    OneParagraph(q);
    assert [p, q][..1] == [p] && [p][..0] == [];
    assert Filled([p]) == Filling([], p) && Filled([p, q]) == Fill(Filling([], p), q);
  }

  // ---------- Chunks ----------

  /** A piece of a section, with how often each term occurs in it. */
  datatype Chunk = Chunk(section: Section, tf: map<string, nat>, length: nat, technical: set<string>, lowerText: string)

  function In(tf: map<string, nat>, term: string): nat {
    if term in tf then tf[term] else 0
  }

  /** Every term counted occurs, and none more often than all of them together. */
  predicate Counts(tf: map<string, nat>, length: nat) {
    forall term <- tf :: 0 < tf[term] <= length
  }

  /** tf counts the terms of seen, mult for each time, on top of what it counted before. */
  ghost predicate Adds(before: map<string, nat>, tf: map<string, nat>, seen: multiset<string>, mult: nat) {
    forall term :: In(tf, term) == In(before, term) + mult * seen[term]
  }

  lemma Distributes(m: nat, a: nat, b: nat)
    ensures m * (a + b) == m * a + m * b
  {
  }

  lemma OneMoreToken(before: map<string, nat>, tf: map<string, nat>, seen: multiset<string>, mult: nat, t: string)
    requires Adds(before, tf, seen, mult)
    ensures Adds(before, tf[t := In(tf, t) + mult], seen + multiset{t}, mult)
  {
    var more := tf[t := In(tf, t) + mult];
    forall term
      ensures In(more, term) == In(before, term) + mult * (seen + multiset{t})[term]
    {
      assert (seen + multiset{t})[term] == seen[term] + if term == t then 1 else 0;
      Distributes(mult, seen[term], if term == t then 1 else 0);
    }
  }

  method AddTokens(tf: map<string, nat>, length: nat, tokens: seq<string>, mult: nat)
    returns (tf': map<string, nat>, length': nat)
    requires Counts(tf, length) && mult > 0
    ensures Counts(tf', length') && length' == length + mult * |tokens|
    ensures Adds(tf, tf', multiset(tokens), mult)
  {
    hide Adds;
    tf', length' := tf, length;
    NoTokens(tf, mult);
    for i := 0 to |tokens|
      invariant Counts(tf', length') && length' == length + mult * i
      invariant Adds(tf, tf', multiset(tokens[..i]), mult)
    {
      var t := tokens[i];
      OneMoreToken(tf, tf', multiset(tokens[..i]), mult, t);
      assert tokens[..i + 1] == tokens[..i] + [t];
      tf' := tf'[t := In(tf', t) + mult];
      length' := length' + mult;
    }
    assert tokens[..|tokens|] == tokens;
  }

  lemma NoTokens(tf: map<string, nat>, mult: nat)
    ensures Adds(tf, tf, multiset([]), mult)
  {
  }

  /** The tokens of a text, words and then technical ones. */
  function AllTokens(l: Language, text: string): seq<string> {
    l.tokenize(text).words + l.tokenize(text).technical
  }

  /** How much weight a term has in a chunk. */
  function Weight(l: Language, s: Section, body: string, term: string): nat {
    multiset(AllTokens(l, body))[term] + TITLE_BOOST * multiset(AllTokens(l, s.title))[term]
    + HEADING_BOOST * multiset(AllTokens(l, Join(s.headingPath, " ")))[term]
    + PATH_BOOST * multiset(AllTokens(l, l.pathTokens(s.docPath)))[term]
  }

  /** The weight of all its terms. */
  function FullWeight(l: Language, s: Section, body: string): nat {
    |AllTokens(l, body)| + TITLE_BOOST * |AllTokens(l, s.title)|
    + HEADING_BOOST * |AllTokens(l, Join(s.headingPath, " "))| + PATH_BOOST * |AllTokens(l, l.pathTokens(s.docPath))|
  }

  /** The technical tokens of a chunk. */
  function Technical(l: Language, s: Section, body: string): set<string> {
    set t | t in l.tokenize(body).technical + l.tokenize(s.title).technical
                 + l.tokenize(Join(s.headingPath, " ")).technical + l.tokenize(l.pathTokens(s.docPath)).technical
  }

  /** What a chunk says of the text it was built from. */
  ghost predicate Built(l: Language, s: Section, body: string, c: Chunk) {
    && c.section == s && Counts(c.tf, c.length)
    && (forall term :: In(c.tf, term) == Weight(l, s, body, term))
    && c.length == FullWeight(l, s, body) && c.technical == Technical(l, s, body)
    && c.lowerText == l.normalize(Join(s.headingPath, " ") + " " + body)
  }

  /** add, inside buildChunk. */
  method AddText(l: Language, c: Chunk, text: string, mult: nat) returns (c': Chunk)
    requires Counts(c.tf, c.length) && mult > 0
    ensures Counts(c'.tf, c'.length) && c' == c.(tf := c'.tf, length := c'.length, technical := c'.technical)
    ensures Adds(c.tf, c'.tf, multiset(AllTokens(l, text)), mult)
    ensures c'.length == c.length + mult * |AllTokens(l, text)|
    ensures forall t :: t in c'.technical <==> t in c.technical || t in l.tokenize(text).technical
  {
    var tokens := l.tokenize(text);
    var tf, length := AddTokens(c.tf, c.length, tokens.words, mult);
    AddsBoth(c.tf, tf, multiset(tokens.words), multiset(tokens.technical), mult);
    Distributes(mult, |tokens.words|, |tokens.technical|);
    tf, length := AddTokens(tf, length, tokens.technical, mult);
    var technical := set t | t in tokens.technical;
    c' := c.(tf := tf, length := length, technical := c.technical + technical);
  }

  lemma AddsBoth(before: map<string, nat>, tf: map<string, nat>, a: multiset<string>, b: multiset<string>, mult: nat)
    requires Adds(before, tf, a, mult)
    ensures forall tf' | Adds(tf, tf', b, mult) :: Adds(before, tf', a + b, mult)
  {
    forall term
      ensures mult * (a + b)[term] == mult * a[term] + mult * b[term]
    {
      Distributes(mult, a[term], b[term]);
    }
  }

  method BuildChunk(l: Language, s: Section, body: string) returns (c: Chunk)
    ensures Built(l, s, body, c)
  {
    hide Counts;
    NothingCounted();
    var start := Chunk(s, map[], 0, {}, "");
    var a := AddText(l, start, body, 1);
    var b := AddText(l, a, s.title, TITLE_BOOST);
    var d := AddText(l, b, Join(s.headingPath, " "), HEADING_BOOST);
    var e := AddText(l, d, l.pathTokens(s.docPath), PATH_BOOST);
    c := e.(lowerText := l.normalize(Join(s.headingPath, " ") + " " + body));
  }

  lemma NothingCounted()
    ensures Counts(map[], 0)
  {
  }

  /**
   What a chunk weighs a term: each time it is a token of the body once, of the title or the headings three times,
   of the path twice. Its length is the weight of all tokens.
   */
  lemma ChunkMeans(l: Language, s: Section, body: string, c: Chunk, term: string)
    requires Built(l, s, body, c)
    ensures var b, title := l.tokenize(body), l.tokenize(s.title);
            var headings, path := l.tokenize(Join(s.headingPath, " ")), l.tokenize(l.pathTokens(s.docPath));
            && (if term in c.tf then c.tf[term] else 0)
               == multiset(b.words)[term] + multiset(b.technical)[term]
                  + 3 * (multiset(title.words)[term] + multiset(title.technical)[term])
                  + 3 * (multiset(headings.words)[term] + multiset(headings.technical)[term])
                  + 2 * (multiset(path.words)[term] + multiset(path.technical)[term])
            && c.length == |b.words| + |b.technical| + 3 * (|title.words| + |title.technical|)
                           + 3 * (|headings.words| + |headings.technical|) + 2 * (|path.words| + |path.technical|)
            && (term in c.technical
                <==> term in b.technical + title.technical + headings.technical + path.technical)
            && c.section == s && c.lowerText == l.normalize(Join(s.headingPath, " ") + " " + body)
  {
    hide Join;
    BothTokens(l, body, term);
    BothTokens(l, s.title, term);
    BothTokens(l, Join(s.headingPath, " "), term);
    BothTokens(l, l.pathTokens(s.docPath), term);
    assert In(c.tf, term) == Weight(l, s, body, term);
  }

  lemma BothTokens(l: Language, text: string, term: string)
    ensures multiset(AllTokens(l, text))[term]
            == multiset(l.tokenize(text).words)[term] + multiset(l.tokenize(text).technical)[term]
  {
    assert multiset(AllTokens(l, text)) == multiset(l.tokenize(text).words) + multiset(l.tokenize(text).technical);
  }

  /** The terms of a chunk. */
  function Terms(l: Language, s: Section, body: string): set<string> {
    set t | t in AllTokens(l, body) + AllTokens(l, s.title) + AllTokens(l, Join(s.headingPath, " "))
                 + AllTokens(l, l.pathTokens(s.docPath))
  }

  lemma {:induction false} AtMostAll(tokens: seq<string>, term: string)
    ensures multiset(tokens)[term] <= |tokens|
  {
    if tokens != [] {
      AtMostAll(tokens[1..], term);
      assert tokens == [tokens[0]] + tokens[1..];
    }
  }

  /** A term has a weight, and no more than all have. */
  lemma WeightWithin(l: Language, s: Section, body: string, term: string)
    ensures Weight(l, s, body, term) <= FullWeight(l, s, body)
    ensures Weight(l, s, body, term) > 0 <==> term in Terms(l, s, body)
  {
    AtMostAll(AllTokens(l, body), term);
    AtMostAll(AllTokens(l, s.title), term);
    AtMostAll(AllTokens(l, Join(s.headingPath, " ")), term);
    AtMostAll(AllTokens(l, l.pathTokens(s.docPath)), term);
  }

  /** The chunk of a text. */
  function ChunkFor(l: Language, s: Section, body: string): (c: Chunk)
    ensures Built(l, s, body, c)
  {
    var tf := map t | t in Terms(l, s, body) :: Weight(l, s, body, t);
    assert (forall term :: In(tf, term) == Weight(l, s, body, term)) && Counts(tf, FullWeight(l, s, body)) by {
      forall term
        ensures In(tf, term) == Weight(l, s, body, term) <= FullWeight(l, s, body)
        ensures term in tf ==> tf[term] > 0
      {
        WeightWithin(l, s, body, term);
      }
    }
    Chunk(s, tf, FullWeight(l, s, body), Technical(l, s, body), l.normalize(Join(s.headingPath, " ") + " " + body))
  }

  /** A text has one chunk. */
  lemma OneChunk(l: Language, s: Section, body: string, c: Chunk, d: Chunk)
    requires Built(l, s, body, c) && Built(l, s, body, d)
    ensures c == d
  {
    hide Weight, FullWeight, Technical;
    SameCounts(c.tf, d.tf);
  }

  lemma SameCounts(a: map<string, nat>, b: map<string, nat>)
    requires forall term <- a :: a[term] > 0
    requires forall term <- b :: b[term] > 0
    requires forall term :: In(a, term) == In(b, term)
    ensures a == b
  {
    forall term
      ensures term in a <==> term in b
      ensures term in a ==> a[term] == b[term]
    {
      assert In(a, term) == In(b, term);
    }
  }

  // ---------- The index ----------

  /** How many chunks hold each term, how long they are on average, and how many there are. */
  datatype Index = Index(chunks: seq<Chunk>, df: map<string, nat>, avgdl: real, n: nat)

  function Holding(chunks: seq<Chunk>, term: string): (n: nat)
    ensures n <= |chunks|
  {
    if chunks == [] then 0
    else Holding(chunks[..|chunks| - 1], term) + if term in chunks[|chunks| - 1].tf then 1 else 0
  }

  function TotalLength(chunks: seq<Chunk>): nat {
    if chunks == [] then 0 else TotalLength(chunks[..|chunks| - 1]) + chunks[|chunks| - 1].length
  }

  /** Holding counts the chunks that hold a term, and TotalLength sums their lengths. */
  lemma {:induction false} CountsMean(a: seq<Chunk>, b: seq<Chunk>, term: string, c: Chunk)
    ensures Holding(a + b, term) == Holding(a, term) + Holding(b, term)
    ensures Holding([c], term) == (if term in c.tf then 1 else 0)
    ensures TotalLength(a + b) == TotalLength(a) + TotalLength(b) && TotalLength([c]) == c.length
  {
    assert [c][..0] == [];
    if b == [] {
      assert a + b == a;
    } else {
      CountsMean(a, b[..|b| - 1], term, c);
      assert (a + b)[..|a + b| - 1] == a + b[..|b| - 1];
    }
  }

  /** df counts the chunks that hold each term, and avgdl is the average length. */
  ghost predicate Indexes(idx: Index) {
    && idx.n == |idx.chunks| && (forall c <- idx.chunks :: Counts(c.tf, c.length))
    && (forall term :: In(idx.df, term) == Holding(idx.chunks, term)) && (forall term <- idx.df :: idx.df[term] > 0)
    && (if idx.n > 0 then idx.avgdl * idx.n as real == TotalLength(idx.chunks) as real else idx.avgdl == 0.0)
  }

  /** The inner loop of NewIndex: each term of a chunk, in any order. */
  method CountTerms(df: map<string, nat>, tf: map<string, nat>) returns (df': map<string, nat>)
    ensures forall term :: In(df', term) == In(df, term) + if term in tf then 1 else 0
    ensures (forall term <- df :: df[term] > 0) ==> forall term <- df' :: df'[term] > 0
  {
    df' := df;
    var rest := tf.Keys;
    while rest != {}
      invariant rest <= tf.Keys
      invariant forall term :: In(df', term) == In(df, term) + if term in tf && term !in rest then 1 else 0
      invariant (forall term <- df :: df[term] > 0) ==> forall term <- df' :: df'[term] > 0
      decreases rest
    {
      var term :| term in rest;
      rest := rest - {term};
      df' := df'[term := In(df', term) + 1];
    }
  }

  /** The chunks of a section: one for each of the windows its body is split into. */
  ghost predicate ChunksOfSection(l: Language, s: Section, chunks: seq<Chunk>) {
    var windows := Windows(s.body);
    |windows| == |chunks| && forall j | 0 <= j < |windows| :: Built(l, s, windows[j], chunks[j])
  }

  /** The chunks of sections, in order. */
  ghost predicate ChunksOf(l: Language, sections: seq<Section>, chunks: seq<Chunk>) {
    if sections == [] then chunks == []
    else exists k | 0 <= k < |chunks| :: ChunksOfSection(l, sections[|sections| - 1], chunks[k..])
                                         && ChunksOf(l, sections[..|sections| - 1], chunks[..k])
  }

  /** The chunks are those of each section's windows, section after section. */
  lemma ChunksMean(l: Language, sections: seq<Section>, chunks: seq<Chunk>)
    returns (groups: seq<seq<Chunk>>)
    requires ChunksOf(l, sections, chunks)
    ensures chunks == Flatten(groups) && |groups| == |sections|
    ensures forall i | 0 <= i < |groups| ::
              && |groups[i]| == |Windows(sections[i].body)|
              && forall j | 0 <= j < |groups[i]| :: Built(l, sections[i], Windows(sections[i].body)[j], groups[i][j])
  {
    groups := ChunkGroups(l, sections, chunks);
  }

  lemma {:induction false} ChunkGroups(l: Language, sections: seq<Section>, chunks: seq<Chunk>)
    returns (groups: seq<seq<Chunk>>)
    requires ChunksOf(l, sections, chunks)
    ensures chunks == Flatten(groups) && |groups| == |sections|
    ensures forall i | 0 <= i < |groups| :: ChunksOfSection(l, sections[i], groups[i])
  {
    hide ChunksOfSection, Flatten;
    groups := [];
    if sections == [] {
      assert Flatten<Chunk>([]) == [] by {
        NothingFlat();
      }
    } else {
      var n := |sections| - 1;
      var k :| 0 <= k < |chunks| && ChunksOfSection(l, sections[n], chunks[k..])
               && ChunksOf(l, sections[..n], chunks[..k]);
      var before := ChunkGroups(l, sections[..n], chunks[..k]);
      groups := before + [chunks[k..]];
      FlattenSnoc(before, chunks[k..]);
      assert chunks[..k] + chunks[k..] == chunks;
    }
  }

  lemma NothingFlat()
    ensures Flatten<Chunk>([]) == []
  {
  }

  predicate ChunkOf(s: Section, c: Chunk) {
    c.section == s && Counts(c.tf, c.length)
  }

  lemma GroupSection(l: Language, s: Section, group: seq<Chunk>)
    requires ChunksOfSection(l, s, group)
    ensures group != [] && forall c <- group :: ChunkOf(s, c)
  {
    hide Counts, Windows, Weight, FullWeight, Technical;
    WindowsKeepText(s.body);
    forall j | 0 <= j < |group|
      ensures ChunkOf(s, group[j])
    {
      assert Built(l, s, Windows(s.body)[j], group[j]);
    }
  }

  /** Each section has a chunk, and there is no chunk of anything else. */
  ghost predicate Cover(sections: seq<Section>, chunks: seq<Chunk>) {
    && (forall s <- sections :: exists c <- chunks :: c.section == s)
    && forall c <- chunks :: c.section in sections && Counts(c.tf, c.length)
  }

  lemma CoverMore(sections: seq<Section>, chunks: seq<Chunk>, s: Section, group: seq<Chunk>)
    requires Cover(sections, chunks) && group != [] && forall c <- group :: ChunkOf(s, c)
    ensures Cover(sections + [s], chunks + group)
  {
    hide Counts;
    forall other | other in sections + [s]
      ensures exists c <- chunks + group :: c.section == other
    {
      if other in sections {
        var c :| c in chunks && c.section == other;
        assert c in chunks + group;
      } else {
        assert group[0] in chunks + group;
      }
    }
  }

  lemma {:induction false} ChunksCover(l: Language, sections: seq<Section>, chunks: seq<Chunk>)
    requires ChunksOf(l, sections, chunks)
    ensures Cover(sections, chunks)
  {
    hide Counts, ChunksOfSection, Cover;
    if sections == [] {
      NothingCovered();
    } else {
      var n := |sections| - 1;
      var k :| 0 <= k < |chunks| && ChunksOfSection(l, sections[n], chunks[k..])
               && ChunksOf(l, sections[..n], chunks[..k]);
      ChunksCover(l, sections[..n], chunks[..k]);
      GroupSection(l, sections[n], chunks[k..]);
      CoverMore(sections[..n], chunks[..k], sections[n], chunks[k..]);
      assert chunks[..k] + chunks[k..] == chunks && sections[..n] + [sections[n]] == sections;
    }
  }

  lemma NothingCovered()
    ensures Cover([], [])
  {
  }

  method SectionChunks(l: Language, s: Section) returns (chunks: seq<Chunk>)
    ensures ChunksOfSection(l, s, chunks)
  {
    hide Built, Windows;
    var bodies := SplitLargeBody(s.body);
    chunks := [];
    for j := 0 to |bodies|
      invariant |chunks| == j && forall i | 0 <= i < j :: Built(l, s, bodies[i], chunks[i])
    {
      var c := BuildChunk(l, s, bodies[j]);
      chunks := chunks + [c];
    }
  }

  method Chunks(l: Language, sections: seq<Section>) returns (chunks: seq<Chunk>)
    ensures ChunksOf(l, sections, chunks)
  {
    hide ChunksOfSection;
    chunks := [];
    for i := 0 to |sections|
      invariant ChunksOf(l, sections[..i], chunks)
    {
      var more := SectionChunks(l, sections[i]);
      MoreChunks(l, sections, i, chunks, more);
      chunks := chunks + more;
    }
    assert sections[..|sections|] == sections;
  }

  lemma MoreChunks(l: Language, sections: seq<Section>, i: nat, chunks: seq<Chunk>, more: seq<Chunk>)
    requires i < |sections| && ChunksOf(l, sections[..i], chunks) && ChunksOfSection(l, sections[i], more)
    ensures ChunksOf(l, sections[..i + 1], chunks + more)
  {
    GroupSection(l, sections[i], more);
    hide ChunksOfSection, Built, ChunkOf, Windows;
    var k, all, upto := |chunks|, chunks + more, sections[..i + 1];
    assert upto[..|upto| - 1] == sections[..i] && upto[|upto| - 1] == sections[i];
    assert all[..k] == chunks && all[k..] == more && k < |all|;
    assert ChunksOfSection(l, upto[|upto| - 1], all[k..]) && ChunksOf(l, upto[..|upto| - 1], all[..k]);
  }

  /** The chunks of a section, and those of sections, in order. */
  function SectionGroup(l: Language, s: Section): (chunks: seq<Chunk>)
    ensures ChunksOfSection(l, s, chunks)
  {
    seq(|Windows(s.body)|, j requires 0 <= j < |Windows(s.body)| => ChunkFor(l, s, Windows(s.body)[j]))
  }

  function ChunkList(l: Language, sections: seq<Section>): (chunks: seq<Chunk>)
    ensures ChunksOf(l, sections, chunks)
  {
    if sections == [] then []
    else
      var n := |sections| - 1;
      var before, group := ChunkList(l, sections[..n]), SectionGroup(l, sections[n]);
      assert ChunksOf(l, sections, before + group) by {
        MoreChunks(l, sections, n, before, group);
        assert sections[..n + 1] == sections;
      }
      before + group
  }

  /** How many chunks hold each of their terms. */
  function Frequencies(chunks: seq<Chunk>): (df: map<string, nat>)
    ensures forall term :: In(df, term) == Holding(chunks, term)
    ensures forall term <- df :: df[term] > 0
  {
    if chunks == [] then map[]
    else
      var last := chunks[|chunks| - 1];
      var df := Frequencies(chunks[..|chunks| - 1]);
      df + map term | term in last.tf :: In(df, term) + 1
  }

  function IndexOfChunks(chunks: seq<Chunk>): Index {
    Index(chunks, Frequencies(chunks),
          if |chunks| > 0 then TotalLength(chunks) as real / |chunks| as real else 0.0, |chunks|)
  }

  lemma ChunksIndexed(l: Language, sections: seq<Section>, chunks: seq<Chunk>)
    requires ChunksOf(l, sections, chunks)
    ensures Indexes(IndexOfChunks(chunks))
  {
    hide ChunksOf, Frequencies, Counts, TotalLength, Holding;
    ChunksCover(l, sections, chunks);
  }

  /** The index of sections. */
  function IndexFor(l: Language, sections: seq<Section>): (idx: Index)
    ensures Indexes(idx) && ChunksOf(l, sections, idx.chunks)
  {
    var chunks := ChunkList(l, sections);
    ChunksIndexed(l, sections, chunks);
    IndexOfChunks(chunks)
  }

  method NewIndex(l: Language, sections: seq<Section>) returns (idx: Index)
    ensures Indexes(idx) && ChunksOf(l, sections, idx.chunks)
    ensures idx == IndexFor(l, sections)
  {
    hide Built, Counts, ChunksOf, TotalLength, Holding, IndexFor;
    var chunks := Chunks(l, sections);
    var df, total := CountChunks(chunks);
    idx := Index(chunks, df, if |chunks| > 0 then total as real / |chunks| as real else 0.0, |chunks|);
    ChunksCover(l, sections, chunks);
    OneIndex(l, sections, idx, IndexFor(l, sections));
  }

  /** The loop of NewIndex over the chunks. */
  method CountChunks(chunks: seq<Chunk>) returns (df: map<string, nat>, total: nat)
    ensures total == TotalLength(chunks) && forall term :: In(df, term) == Holding(chunks, term)
    ensures forall term <- df :: df[term] > 0
  {
    df, total := map[], 0;
    for i := 0 to |chunks|
      invariant total == TotalLength(chunks[..i])
      invariant forall term :: In(df, term) == Holding(chunks[..i], term)
      invariant forall term <- df :: df[term] > 0
    {
      assert chunks[..i + 1][..i] == chunks[..i];
      total := total + chunks[i].length;
      df := CountTerms(df, chunks[i].tf);
    }
    assert chunks[..|chunks|] == chunks;
  }

  // ---------- The index is the sections' ----------

  lemma OneGroup(l: Language, s: Section, a: seq<Chunk>, b: seq<Chunk>)
    requires ChunksOfSection(l, s, a) && ChunksOfSection(l, s, b)
    ensures a == b
  {
    hide Built, Windows;
    forall j | 0 <= j < |a|
      ensures a[j] == b[j]
    {
      OneChunk(l, s, Windows(s.body)[j], a[j], b[j]);
    }
  }

  lemma {:induction false} OneList(l: Language, sections: seq<Section>, a: seq<Chunk>, b: seq<Chunk>)
    requires ChunksOf(l, sections, a) && ChunksOf(l, sections, b)
    ensures a == b
  {
    hide ChunksOfSection;
    if sections != [] {
      var n := |sections| - 1;
      var k :| 0 <= k < |a| && ChunksOfSection(l, sections[n], a[k..]) && ChunksOf(l, sections[..n], a[..k]);
      var j :| 0 <= j < |b| && ChunksOfSection(l, sections[n], b[j..]) && ChunksOf(l, sections[..n], b[..j]);
      OneList(l, sections[..n], a[..k], b[..j]);
      OneGroup(l, sections[n], a[k..], b[j..]);
      assert a[..k] + a[k..] == a && b[..j] + b[j..] == b;
    }
  }

  /** Sections have one index. */
  lemma OneIndex(l: Language, sections: seq<Section>, a: Index, b: Index)
    requires Indexes(a) && ChunksOf(l, sections, a.chunks)
    requires Indexes(b) && ChunksOf(l, sections, b.chunks)
    ensures a == b
  {
    hide Indexes, ChunksOf;
    OneList(l, sections, a.chunks, b.chunks);
    SameIndex(a, b);
  }

  lemma SameIndex(a: Index, b: Index)
    requires Indexes(a) && Indexes(b) && a.chunks == b.chunks
    ensures a == b
  {
    hide Counts, TotalLength, Holding;
    forall term
      ensures In(a.df, term) == In(b.df, term)
    {
      assert In(a.df, term) == Holding(a.chunks, term);
    }
    hide In;
    SameCounts(a.df, b.df);
    if a.n > 0 {
      AverageTimes(a, a.n as real);
      AverageTimes(b, a.n as real);
      SameQuotient(a.avgdl, b.avgdl, a.n as real);
    }
  }

  lemma AverageTimes(a: Index, n: real)
    requires Indexes(a) && a.n > 0 && n == a.n as real
    ensures a.avgdl * n == TotalLength(a.chunks) as real
  {
    hide Counts, TotalLength, Holding, In;
  }

  lemma SameQuotient(a: real, b: real, n: real)
    requires n > 0.0 && a * n == b * n
    ensures a == b
  {
    assert (a - b) * n == 0.0;
  }
}
