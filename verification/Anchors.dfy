/** Section anchors (slugify, uniqueAnchor and itoa in internal/docs/parse.go). */
module Anchors {
  import opened Collections
  import opened Numerals
  import opened Strings

  const MAX_INT := 0x7fff_ffff_ffff_ffff

  // ---------- Numbering ----------

  /** itoa: fills a buffer from its end; an int has at most 19 digits. */
  method Itoa(n: nat) returns (s: string)
    requires n <= MAX_INT
    ensures s == Decimal(n)
  {
    if n == 0 {
      assert Decimal(0) == [Digit(0)] == "0";
      return "0";
    }
    var b := new char[20];
    var i, rest := b.Length, n;
    DigitsFit(n);
    while rest > 0
      invariant 0 <= i <= b.Length && 0 <= rest
      invariant rest > 0 ==> Decimal(n) == Decimal(rest) + b[i..] && |Decimal(rest)| <= i
      invariant rest == 0 ==> Decimal(n) == b[i..]
    {
      i := i - 1;
      b[i] := Digit(rest % 10);
      rest := rest / 10;
    }
    s := b[i..];
  }

  lemma {:induction false} NumeralLength(n: nat, d: nat, bound: nat)
    requires n < bound && bound == Pow10(d) && d > 0
    ensures |Decimal(n)| <= d
    decreases d
  {
    if n >= 10 {
      NumeralLength(n / 10, d - 1, Pow10(d - 1));
    }
  }

  function Pow10(d: nat): nat {
    if d == 0 then 1 else 10 * Pow10(d - 1)
  }

  lemma DigitsFit(n: nat)
    requires n <= MAX_INT
    ensures |Decimal(n)| <= 20
  {
    assert Pow10(5) == 100000;
    assert Pow10(10) == 100000 * Pow10(5) by {
      assert Pow10(7) == 100 * Pow10(5) && Pow10(9) == 100 * Pow10(7);
    }
    assert Pow10(15) == 100000 * Pow10(10) by {
      assert Pow10(12) == 100 * Pow10(10) && Pow10(14) == 100 * Pow10(12);
    }
    assert Pow10(20) == 100000 * Pow10(15) by {
      assert Pow10(17) == 100 * Pow10(15) && Pow10(19) == 100 * Pow10(17);
    }
    NumeralLength(n, 20, Pow10(20));
  }

  // ---------- Slugs ----------

  predicate SlugChar(c: char) {
    'a' <= c <= 'z' || '0' <= c <= '9' || c == '-'
  }

  predicate Slug(s: string) {
    forall c <- s :: SlugChar(c)
  }

  /** Drops what is neither a lower-case letter, a digit, a space nor a hyphen, and makes spaces hyphens. */
  function Hyphenated(s: string): string {
    if s == "" then ""
    else (if s[0] == ' ' then "-" else if SlugChar(s[0]) then [s[0]] else "") + Hyphenated(s[1..])
  }

  lemma {:induction false} HyphenatedIsSlug(s: string)
    ensures Slug(Hyphenated(s))
  {
    if s != "" {
      HyphenatedIsSlug(s[1..]);
    }
  }

  /** One ReplaceAll of "--" by "-", left to right. */
  function HalveHyphens(s: string): (t: string)
    ensures |t| <= |s| && (HasDouble(s) ==> |t| < |s|) && (Slug(s) ==> Slug(t))
  {
    if |s| < 2 then s
    else if s[0] == '-' && s[1] == '-' then "-" + HalveHyphens(s[2..])
    else
      assert HasDouble(s) ==> HasDouble(s[1..]) by {
        if HasDouble(s) {
          var i :| 0 <= i < |s| - 1 && s[i] == '-' && s[i + 1] == '-';
          assert s[1..][i - 1] == '-' && s[1..][i] == '-';
        }
      }
      [s[0]] + HalveHyphens(s[1..])
  }

  predicate HasDouble(s: string) {
    exists i | 0 <= i < |s| - 1 :: s[i] == '-' && s[i + 1] == '-'
  }

  function TrimHyphens(s: string): string {
    if s != "" && s[0] == '-' then TrimHyphens(s[1..])
    else if s != "" && s[|s| - 1] == '-' then TrimHyphens(s[..|s| - 1])
    else s
  }

  lemma {:induction false} TrimmedIsSlug(s: string)
    requires Slug(s)
    ensures Slug(TrimHyphens(s))
    ensures TrimHyphens(s) != "" ==> TrimHyphens(s)[0] != '-' && TrimHyphens(s)[|TrimHyphens(s)| - 1] != '-'
  {
    if s != "" && s[0] == '-' {
      TrimmedIsSlug(s[1..]);
    } else if s != "" && s[|s| - 1] == '-' {
      TrimmedIsSlug(s[..|s| - 1]);
    }
  }

  /** slugify, from the heading in lower case: letters and digits in words joined by single hyphens. */
  method Slugify(lower: string) returns (s: string)
    ensures s == SlugOf(lower)
  {
    s := Hyphenated(lower);
    HyphenatedIsSlug(lower);
    while HasDouble(s)
      invariant Slug(s) && Collapsed(s) == Collapsed(Hyphenated(lower))
      decreases |s|
    {
      HalvingCollapses(s);
      s := HalveHyphens(s);
    }
    NothingToCollapse(s);
    s := TrimHyphens(s);
  }

  /** Every run of hyphens as a single one. */
  function Collapsed(s: string): string {
    if |s| < 2 then s
    else if s[0] == '-' && s[1] == '-' then Collapsed(s[1..])
    else [s[0]] + Collapsed(s[1..])
  }

  function SlugOf(lower: string): string {
    TrimHyphens(Collapsed(Hyphenated(lower)))
  }

  lemma {:induction false} CollapsedStart(s: string)
    ensures s != "" ==> Collapsed(s) != "" && Collapsed(s)[0] == s[0]
  {
    if |s| >= 2 && s[0] == '-' && s[1] == '-' {
      CollapsedStart(s[1..]);
    }
  }

  /** A hyphen before a string collapses with the hyphens it starts with. */
  lemma HyphenBefore(s: string)
    ensures Collapsed("-" + s) == if s != "" && s[0] == '-' then Collapsed(s) else "-" + Collapsed(s)
  {
    assert ("-" + s)[1..] == s;
  }

  lemma {:induction false} HalvingCollapses(s: string)
    ensures Collapsed(HalveHyphens(s)) == Collapsed(s)
    ensures s != "" ==> HalveHyphens(s) != "" && HalveHyphens(s)[0] == s[0]
    decreases |s|
  {
    if |s| >= 2 {
      if s[0] == '-' && s[1] == '-' {
        var rest := s[2..];
        HalvingCollapses(rest);
        HyphenBefore(HalveHyphens(rest));
        HyphenBefore(rest);
        assert s[1..] == "-" + rest;
      } else {
        HalvingCollapses(s[1..]);
        var rest := HalveHyphens(s[1..]);
        assert ([s[0]] + rest)[1..] == rest;
      }
    }
  }

  lemma {:induction false} NothingToCollapse(s: string)
    requires !HasDouble(s)
    ensures Collapsed(s) == s
  {
    if |s| >= 2 {
      assert s[0] != '-' || s[1] != '-';
      assert !HasDouble(s[1..]) by {
        forall i | 0 <= i < |s[1..]| - 1
          ensures !(s[1..][i] == '-' && s[1..][i + 1] == '-')
        {
          assert !(s[i + 1] == '-' && s[i + 2] == '-');
        }
      }
      NothingToCollapse(s[1..]);
      assert s == [s[0]] + s[1..];
    }
  }

  lemma {:induction false} CollapsedIsSlug(s: string)
    requires Slug(s)
    ensures Slug(Collapsed(s))
  {
    if |s| >= 2 {
      CollapsedIsSlug(s[1..]);
    }
  }

  lemma {:induction false} CollapsedSingle(s: string)
    ensures !HasDouble(Collapsed(s))
  {
    if |s| >= 2 {
      CollapsedSingle(s[1..]);
      CollapsedStart(s[1..]);
      if s[0] != '-' || s[1] != '-' {
        SingleBefore(s[0], Collapsed(s[1..]));
      }
    }
  }

  lemma SingleBefore(c: char, s: string)
    requires !HasDouble(s) && s != "" && (c != '-' || s[0] != '-')
    ensures !HasDouble([c] + s)
  {
    forall i | 0 < i < |[c] + s| - 1
      ensures !(([c] + s)[i] == '-' && ([c] + s)[i + 1] == '-')
    {
      assert !(s[i - 1] == '-' && s[i] == '-');
    }
  }

  lemma {:induction false} TrimmedSingle(s: string)
    requires !HasDouble(s)
    ensures !HasDouble(TrimHyphens(s))
  {
    if s != "" && s[0] == '-' {
      assert !HasDouble(s[1..]) by {
        forall i | 0 <= i < |s[1..]| - 1
          ensures !(s[1..][i] == '-' && s[1..][i + 1] == '-')
        {
          assert !(s[i + 1] == '-' && s[i + 2] == '-');
        }
      }
      TrimmedSingle(s[1..]);
    } else if s != "" && s[|s| - 1] == '-' {
      assert !HasDouble(s[..|s| - 1]);
      TrimmedSingle(s[..|s| - 1]);
    }
  }

  /** A slug is made of slug characters, and its hyphens are single and between others. */
  lemma SlugIsSlug(lower: string)
    ensures Slug(SlugOf(lower)) && !HasDouble(SlugOf(lower))
    ensures SlugOf(lower) != "" ==> SlugOf(lower)[0] != '-' && SlugOf(lower)[|SlugOf(lower)| - 1] != '-'
  {
    hide Hyphenated, Collapsed, TrimHyphens, HasDouble;
    HyphenatedIsSlug(lower);
    CollapsedIsSlug(Hyphenated(lower));
    TrimmedIsSlug(Collapsed(Hyphenated(lower)));
    CollapsedSingle(Hyphenated(lower));
    TrimmedSingle(Collapsed(Hyphenated(lower)));
  }

  // ---------- A slug is words ----------

  /** Each character is taken by itself: letters, digits and hyphens stay, a space is a hyphen, others are dropped. */
  lemma {:induction false} HyphenatedMeans(a: string, b: string, c: char)
    ensures Hyphenated(a + b) == Hyphenated(a) + Hyphenated(b)
    ensures Hyphenated([c]) == if 'a' <= c <= 'z' || '0' <= c <= '9' then [c] else if c in {' ', '-'} then "-" else ""
  {
    assert [c][1..] == "";
    if a == "" {
      assert a + b == b;
    } else {
      HyphenatedMeans(a[1..], b, c);
      assert (a + b)[1..] == a[1..] + b;
    }
  }

  /** The words between hyphens. */
  function Words(s: string): seq<string> {
    NonEmpty(Split(s, '-'))
  }

  lemma {:induction false} NoneBlank(a: seq<string>)
    ensures forall w <- NonEmpty(a) :: w != "" && w in a
  {
    if a != [] {
      NoneBlank(a[1..]);
    }
  }

  lemma SplitAhead(c: char, s: string)
    ensures var parts := Split(s, '-');
            && (if c == '-' then Split([c] + s, '-') == [""] + parts
                else Split([c] + s, '-') == [[c] + parts[0]] + parts[1..])
            && (parts[0] == "" <==> s == "" || s[0] == '-') && (s == "" ==> parts == [""])
  {
    assert ([c] + s)[1..] == s;
  }

  lemma WordAhead(c: char, s: string)
    requires c != '-'
    ensures var rest := Words(s);
            if s == "" || s[0] == '-' then Words([c] + s) == [[c]] + rest
            else rest != [] && Words([c] + s) == [[c] + rest[0]] + rest[1..]
  {
    hide Split;
    SplitAhead(c, s);
    var parts := Split(s, '-');
    var more := [c] + parts[0];
    assert ([more] + parts[1..])[1..] == parts[1..];
    assert Words([c] + s) == [more] + NonEmpty(parts[1..]);
    if parts[0] == "" {
      assert more == [c];
      assert Words(s) == [] + NonEmpty(parts[1..]) == NonEmpty(parts[1..]);
    } else {
      assert Words(s) == [parts[0]] + NonEmpty(parts[1..]);
    }
  }

  lemma HyphenAhead(s: string)
    ensures Words("-" + s) == Words(s)
  {
    hide Split;
    SplitAhead('-', s);
    assert ([""] + Split(s, '-'))[1..] == Split(s, '-');
  }

  lemma NoWords()
    ensures Words("") == [] && Words("-") == []
  {
    HyphenAhead("");
    assert "-" + "" == "-" && NonEmpty([""]) == [] + NonEmpty([""][1..]);
  }

  lemma JoinAhead(c: char, words: seq<string>)
    ensures Join([[c]] + words, "-") == if words == [] then [c] else [c] + "-" + Join(words, "-")
    ensures words != [] ==> Join([[c] + words[0]] + words[1..], "-") == [c] + Join(words, "-")
  {
    assert ([[c]] + words)[1..] == words;
    if words != [] {
      assert ([[c] + words[0]] + words[1..])[1..] == words[1..];
    }
  }

  /** With runs of hyphens made one, the words are joined by hyphens, and a hyphen at either end stays. */
  lemma {:induction false} CollapsedIsWords(s: string)
    requires s != ""
    ensures Collapsed(s) == (if s[0] == '-' then "-" else "") + Join(Words(s), "-")
                            + if s[|s| - 1] == '-' && Words(s) != [] then "-" else ""
    ensures Words(s) == [] ==> s[|s| - 1] == '-'
  {
    hide Words, Join;
    NoWords();
    JoinAhead(s[0], []);
    assert Join([], "-") == "" by {
      JoinNone();
    }
    if |s| == 1 {
      assert s == [s[0]] + "" && [[s[0]]] + [] == [[s[0]]];
      if s[0] == '-' {
        assert s == "-";
      } else {
        WordAhead(s[0], "");
      }
    } else {
      var rest := s[1..];
      CollapsedIsWords(rest);
      assert s == [s[0]] + rest && rest[|rest| - 1] == s[|s| - 1];
      if s[0] == '-' {
        HyphenAhead(rest);
      } else {
        WordAhead(s[0], rest);
        JoinAhead(s[0], Words(rest));
      }
    }
  }

  lemma JoinNone()
    ensures Join([], "-") == ""
  {
  }

  lemma {:induction false} TrimmedWords(words: seq<string>)
    requires words != [] && forall w <- words :: w != "" && '-' !in w
    ensures var j := Join(words, "-"); j != "" && j[0] != '-' && j[|j| - 1] != '-'
  {
    assert words[0] in words && words[0][0] in words[0] && words[0][|words[0]| - 1] in words[0];
    if |words| > 1 {
      assert forall w <- words[1..] :: w in words;
      TrimmedWords(words[1..]);
    }
  }

  lemma TrimBoth(s: string, lead: string, trail: string)
    requires lead in {"", "-"} && trail in {"", "-"} && s != "" && s[0] != '-' && s[|s| - 1] != '-'
    ensures TrimHyphens(lead + s + trail) == s
  {
    var t := s + trail;
    assert t[..|s|] == s && t[0] == s[0];
    assert TrimHyphens(s) == s;
    assert TrimHyphens(t) == s by {
      if trail == "" {
        assert t == s;
      } else {
        assert t[|t| - 1] == '-' && t[..|t| - 1] == s;
      }
    }
    if lead == "-" {
      assert (lead + s + trail)[1..] == t;
    } else {
      assert lead + s + trail == t;
    }
  }

  /** The slug of a heading in lower case is its words, of letters and digits between spaces and hyphens, hyphenated. */
  lemma SlugIsWords(lower: string)
    ensures SlugOf(lower) == Join(Words(Hyphenated(lower)), "-")
  {
    hide Collapsed, Hyphenated, Words;
    var h := Hyphenated(lower);
    NoWords();
    if h == "" {
      NothingToCollapse("");
    } else {
      CollapsedIsWords(h);
      WordsHoldNoHyphen(h);
      var lead, trail := if h[0] == '-' then "-" else "", if h[|h| - 1] == '-' && Words(h) != [] then "-" else "";
      if Words(h) == [] {
        assert Collapsed(h) == lead;
      } else {
        TrimmedWords(Words(h));
        TrimBoth(Join(Words(h), "-"), lead, trail);
      }
    }
  }

  lemma WordsHoldNoHyphen(s: string)
    ensures forall w <- Words(s) :: w != "" && '-' !in w
  {
    NoneBlank(Split(s, '-'));
  }

  // ---------- Unique anchors ----------

  /** The i-th candidate for a heading's anchor. */
  function Candidate(base: string, i: nat): string {
    if i == 0 then base else base + "-" + Decimal(i)
  }

  lemma CandidatesDiffer(base: string, i: nat, j: nat)
    requires Candidate(base, i) == Candidate(base, j)
    ensures i == j
  {
    if i > 0 && j > 0 {
      assert Candidate(base, i)[|base| + 1..] == Decimal(i);
      assert Candidate(base, j)[|base| + 1..] == Decimal(j);
      DecimalInjective(i, j);
    }
  }

  /** Those of the candidates from i on that are used. */
  ghost function Taken(used: set<string>, base: string, i: nat): set<string> {
    set c | c in used && exists j: nat :: i <= j && c == Candidate(base, j)
  }

  lemma FewerTaken(used: set<string>, base: string, i: nat)
    requires Candidate(base, i) in used
    ensures Taken(used, base, i + 1) < Taken(used, base, i)
  {
    assert Candidate(base, i) in Taken(used, base, i);
    if Candidate(base, i) in Taken(used, base, i + 1) {
      var j: nat :| i + 1 <= j && Candidate(base, i) == Candidate(base, j);
      CandidatesDiffer(base, i, j);
    }
  }

  /** The number of the first candidate from i on that is not used. */
  ghost function FirstFree(used: set<string>, base: string, i: nat): nat
    decreases Taken(used, base, i)
  {
    if Candidate(base, i) !in used then i
    else
      FewerTaken(used, base, i);
      FirstFree(used, base, i + 1)
  }

  lemma {:induction false} FirstFreeIsFree(used: set<string>, base: string, i: nat)
    ensures i <= FirstFree(used, base, i) && Candidate(base, FirstFree(used, base, i)) !in used
    ensures forall j | i <= j < FirstFree(used, base, i) :: Candidate(base, j) in used
    decreases Taken(used, base, i)
  {
    if Candidate(base, i) in used {
      FewerTaken(used, base, i);
      FirstFreeIsFree(used, base, i + 1);
    }
  }

  /** The anchor of a heading, from its slug, when the anchors in used are taken. */
  ghost function Anchor(used: set<string>, slug: string): string {
    var base := if slug == "" then "section" else slug;
    Candidate(base, FirstFree(used, base, 0))
  }

  /** It is the slug, "section" for an empty one, or that numbered by the first number that makes it free. */
  lemma AnchorMeans(used: set<string>, slug: string)
    ensures var base := if slug == "" then "section" else slug;
            && (base !in used ==> Anchor(used, slug) == base)
            && (base in used ==> exists n: nat ::
                  && n > 0 && Anchor(used, slug) == base + "-" + Decimal(n) && Anchor(used, slug) !in used
                  && forall i | 0 < i < n :: base + "-" + Decimal(i) in used)
  {
    var base := if slug == "" then "section" else slug;
    var n := FirstFree(used, base, 0);
    FirstFreeIsFree(used, base, 0);
    if base in used {
      assert Candidate(base, 0) == base && n > 0;
      forall i | 0 < i < n
        ensures base + "-" + Decimal(i) in used
      {
        assert Candidate(base, i) in used;
      }
    }
  }

  /**
   uniqueAnchor: the first candidate not used. The loop ends because the candidates differ and only
   finitely many are used.
   */
  method UniqueAnchor(used: set<string>, slug: string) returns (cand: string, used': set<string>)
    requires |used| < MAX_INT
    ensures cand == Anchor(used, slug) && cand !in used && used' == used + {cand}
  {
    var base := if slug == "" then "section" else slug;
    cand := base;
    var i := 1;
    SubsetSize(Taken(used, base, 0), used);
    while cand in used
      invariant 1 <= i && cand == Candidate(base, i - 1)
      invariant FirstFree(used, base, 0) == FirstFree(used, base, i - 1)
      invariant i - 1 + |Taken(used, base, i - 1)| <= |used|
      decreases Taken(used, base, i - 1)
    {
      FewerTaken(used, base, i - 1);
      ProperSubsetSize(Taken(used, base, i), Taken(used, base, i - 1));
      var suffix := Itoa(i);
      cand := base + "-" + suffix;
      i := i + 1;
    }
    used' := used + {cand};
  }

  /** An anchor is never empty and is made of slug characters, so it holds no '#' and no space. */
  lemma AnchorIsSlug(used: set<string>, slug: string)
    requires Slug(slug)
    ensures Anchor(used, slug) != "" && Slug(Anchor(used, slug)) && Anchor(used, slug) !in used
  {
    var base := if slug == "" then "section" else slug;
    assert Slug("section");
    var n := FirstFree(used, base, 0);
    FirstFreeIsFree(used, base, 0);
    if n > 0 {
      DecimalReadsBack(n);
      forall c | c in base + "-" + Decimal(n)
        ensures SlugChar(c)
      {
        assert c in base || c == '-' || c in Decimal(n);
      }
    }
  }
}
