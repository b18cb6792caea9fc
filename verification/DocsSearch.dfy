/**
 BM25 search over the index (Search, idxIDF and dedupe in internal/docs/search.go). Scores are reals and the
 logarithm is any function positive above 1.
 */
module DocsSearch {
  import opened Collections
  import opened Wrappers
  import opened DocsParse
  import opened DocsSections
  import opened DocsIndex
  import opened Strings

  const K1 := 1.5
  const B := 0.75
  const PHRASE_BONUS := 2.0
  const TECHNICAL_BONUS := 1.5
  const CLI_TOPIC := "cli"
  const CLI_TOPIC_BOOST := 1.5

  datatype Ranker = Ranker(language: Language, equalFold: (string, string) -> bool, contains: (string, string) -> bool,
                           ln: real -> real, snippet: (string, seq<string>) -> string) {
    ghost predicate Valid() {
      forall x :: x > 1.0 ==> ln(x) > 0.0
    }
  }

  /** rank is 0 until the results are ranked. */
  datatype Result = Result(id: string, rank: nat, score: real, section: Section, snippet: string,
                           matchedTerms: seq<string>)

  // ---------- Removing repeats in place ----------

  /** The first occurrences of the elements of s, in order. */
  function Firsts(s: seq<string>): (r: seq<string>)
    ensures |r| <= |s| && (forall x :: x in r <==> x in s)
  {
    if s == [] then []
    else
      var before := Firsts(s[..|s| - 1]);
      if s[|s| - 1] in before then before else before + [s[|s| - 1]]
  }

  lemma {:induction false} FirstsDistinct(s: seq<string>)
    ensures Distinct(Firsts(s)) && (Distinct(s) ==> Firsts(s) == s)
  {
    if s != [] {
      FirstsDistinct(s[..|s| - 1]);
    }
  }

  /** Each is where the list first has it, after all that come before it. */
  lemma {:induction false} FirstsMean(s: seq<string>, k: nat) returns (i: nat)
    requires k < |Firsts(s)|
    ensures i < |s| && s[i] == Firsts(s)[k] && s[i] !in s[..i]
    ensures forall x :: x in s[..i] <==> x in Firsts(s)[..k]
  {
    var n := |s| - 1;
    var before := Firsts(s[..n]);
    if k < |before| {
      i := FirstsMean(s[..n], k);
      assert s[..n][..i] == s[..i] && Firsts(s)[..k] == before[..k];
    } else {
      i := n;
      assert Firsts(s)[..k] == before;
    }
  }

  /** dedupe: moves what it keeps to the front of the same array. */
  method Dedupe(a: array<string>) returns (n: nat)
    modifies a
    ensures n <= a.Length && a[..n] == Firsts(old(a[..]))
  {
    var seen: set<string> := {};
    n := 0;
    ghost var before := a[..];
    for i := 0 to a.Length
      invariant n <= i && a[..n] == Firsts(before[..i]) && forall k | i <= k < a.Length :: a[k] == before[k]
      invariant forall s :: s in seen <==> s in before[..i]
    {
      var s := a[i];
      assert s == before[i] && before[..i + 1][..i] == before[..i];
      if s in seen {
        continue;
      }
      seen := seen + {s};
      a[n] := s;
      n := n + 1;
      assert a[..n] == Firsts(before[..i]) + [s];
    }
    assert before[..a.Length] == before;
  }

  method Deduped(s: seq<string>) returns (r: seq<string>)
    ensures r == Firsts(s)
  {
    var a := new string[|s|](i requires 0 <= i < |s| => s[i]);
    assert a[..] == s;
    var n := Dedupe(a);
    r := a[..n];
  }

  // ---------- Scoring a chunk ----------

  /** idxIDF */
  function Idf(r: Ranker, n: nat, df: nat): real {
    if df == 0 then 0.0 else r.ln(1.0 + (n as real - df as real + 0.5) / (df as real + 0.5))
  }

  /** A term some chunks hold has a positive weight. */
  lemma IdfPositive(r: Ranker, n: nat, df: nat)
    requires r.Valid() && 0 < df <= n
    ensures Idf(r, n, df) > 0.0
  {
  }

  function Norm(c: Chunk, avgdl: real, f: nat): real
    requires avgdl > 0.0
  {
    f as real + K1 * (1.0 - B + B * c.length as real / avgdl)
  }

  lemma NormPositive(c: Chunk, avgdl: real, f: nat)
    requires avgdl > 0.0 && f > 0
    ensures Norm(c, avgdl, f) > 0.0
  {
    assert B * c.length as real >= 0.0;
    assert B * c.length as real / avgdl >= 0.0;
  }

  /** The average length is positive once a chunk holds a term. */
  lemma {:induction false} HoldsLength(chunks: seq<Chunk>, c: Chunk, term: string)
    requires c in chunks && Counts(c.tf, c.length) && term in c.tf
    ensures TotalLength(chunks) > 0 && Holding(chunks, term) > 0
  {
    if chunks[|chunks| - 1] != c {
      assert c in chunks[..|chunks| - 1];
      HoldsLength(chunks[..|chunks| - 1], c, term);
    }
  }

  lemma NonPositive(a: real, n: nat)
    ensures a <= 0.0 ==> a * n as real <= 0.0
  {
  }

  lemma AverageLength(idx: Index, c: Chunk, term: string)
    requires Indexes(idx) && c in idx.chunks && term in c.tf
    ensures idx.avgdl > 0.0 && 0 < In(idx.df, term) <= idx.n && c.tf[term] > 0
  {
    HoldsLength(idx.chunks, c, term);
    NonPositive(idx.avgdl, idx.n);
  }

  /** What term adds to the score of c. */
  function TermScore(r: Ranker, idx: Index, term: string, c: Chunk): real
    requires Indexes(idx) && c in idx.chunks
  {
    if term !in c.tf then 0.0
    else
      AverageLength(idx, c, term);
      NormPositive(c, idx.avgdl, c.tf[term]);
      Idf(r, idx.n, In(idx.df, term)) * (c.tf[term] as real * (K1 + 1.0)) / Norm(c, idx.avgdl, c.tf[term])
  }

  /** The BM25 weight of a term that is in the chunk. */
  lemma TermScoreMeans(r: Ranker, idx: Index, term: string, c: Chunk)
    requires Indexes(idx) && c in idx.chunks && term in c.tf
    ensures var n, df, f := idx.n as real, In(idx.df, term) as real, c.tf[term] as real;
            && df > 0.0 && idx.avgdl > 0.0 && f + 1.5 * (0.25 + 0.75 * c.length as real / idx.avgdl) > 0.0
            && TermScore(r, idx, term, c)
               == r.ln(1.0 + (n - df + 0.5) / (df + 0.5)) * (f * 2.5)
                  / (f + 1.5 * (0.25 + 0.75 * c.length as real / idx.avgdl))
  {
    AverageLength(idx, c, term);
    NormPositive(c, idx.avgdl, c.tf[term]);
  }

  ghost predicate Increasing(ln: real -> real) {
    forall x, y | 1.0 < x < y :: ln(x) < ln(y)
  }

  /** A term that fewer chunks hold weighs more. */
  lemma RarerWeighsMore(r: Ranker, n: nat, rare: nat, common: nat)
    requires Increasing(r.ln) && 0 < rare < common <= n
    ensures Idf(r, n, common) < Idf(r, n, rare)
  {
    var a, b := n as real - rare as real + 0.5, rare as real + 0.5;
    var c, d := n as real - common as real + 0.5, common as real + 0.5;
    GreaterQuotient(a, b, c, d);
    assert Idf(r, n, rare) == r.ln(1.0 + a / b) && Idf(r, n, common) == r.ln(1.0 + c / d);
  }

  lemma GreaterQuotient(a: real, b: real, c: real, d: real)
    requires a > c > 0.0 && d > b > 0.0
    ensures a / b > c / d > 0.0
  {
    assert a / b > c / b by {
      assert (a - c) / b > 0.0;
      assert a / b == c / b + (a - c) / b;
    }
    assert c / b > c / d by {
      assert c * (1.0 / b - 1.0 / d) == c / b - c / d;
      assert 1.0 / b > 1.0 / d by {
        assert 1.0 / b - 1.0 / d == (d - b) / (b * d);
        assert b * d > 0.0;
      }
    }
  }

  function TermsScore(r: Ranker, idx: Index, terms: seq<string>, c: Chunk): real
    requires Indexes(idx) && c in idx.chunks
  {
    if terms == [] then 0.0
    else TermsScore(r, idx, terms[..|terms| - 1], c) + TermScore(r, idx, terms[|terms| - 1], c)
  }

  /** The terms add up. */
  lemma {:induction false} TermsScoreMeans(r: Ranker, idx: Index, a: seq<string>, b: seq<string>, term: string,
                                           c: Chunk)
    requires Indexes(idx) && c in idx.chunks
    ensures TermsScore(r, idx, a + b, c) == TermsScore(r, idx, a, c) + TermsScore(r, idx, b, c)
    ensures TermsScore(r, idx, [term], c) == TermScore(r, idx, term, c)
    ensures term !in c.tf ==> TermScore(r, idx, term, c) == 0.0
  {
    hide Indexes, TermScore;
    assert [term][..0] == [];
    NoTermScores(r, idx, term, c);
    if b == [] {
      assert a + b == a;
    } else {
      TermsScoreMeans(r, idx, a, b[..|b| - 1], term, c);
      assert (a + b)[..|a + b| - 1] == a + b[..|b| - 1];
    }
  }

  lemma NoTermScores(r: Ranker, idx: Index, term: string, c: Chunk)
    requires Indexes(idx) && c in idx.chunks
    ensures term !in c.tf ==> TermScore(r, idx, term, c) == 0.0
  {
  }

  /** Terms of the query that are in c, in order. */
  function Matched(terms: seq<string>, c: Chunk): seq<string> {
    if terms == [] then []
    else Matched(terms[..|terms| - 1], c) + if terms[|terms| - 1] in c.tf then [terms[|terms| - 1]] else []
  }

  lemma {:induction false} MatchedMeans(a: seq<string>, b: seq<string>, term: string, c: Chunk)
    ensures Matched(a + b, c) == Matched(a, c) + Matched(b, c)
    ensures Matched([term], c) == if term in c.tf then [term] else []
  {
    assert [term][..0] == [];
    if b == [] {
      assert a + b == a;
    } else {
      MatchedMeans(a, b[..|b| - 1], term, c);
      assert (a + b)[..|a + b| - 1] == a + b[..|b| - 1];
    }
  }

  predicate Matches(terms: seq<string>, c: Chunk) {
    exists term <- terms :: term in c.tf
  }

  lemma QuotientPositive(a: real, b: real, d: real)
    requires a > 0.0 && b > 0.0 && d > 0.0
    ensures a * b / d > 0.0
  {
    assert a * b > 0.0;
  }

  lemma TermScorePositive(r: Ranker, idx: Index, term: string, c: Chunk)
    requires r.Valid() && Indexes(idx) && c in idx.chunks && term in c.tf
    ensures TermScore(r, idx, term, c) > 0.0
  {
    AverageLength(idx, c, term);
    NormPositive(c, idx.avgdl, c.tf[term]);
    IdfPositive(r, idx.n, In(idx.df, term));
    QuotientPositive(Idf(r, idx.n, In(idx.df, term)), c.tf[term] as real * (K1 + 1.0), Norm(c, idx.avgdl, c.tf[term]));
  }

  /** A chunk scores exactly when a term of the query is in it. */
  lemma {:induction false} ScoresWhenMatches(r: Ranker, idx: Index, terms: seq<string>, c: Chunk)
    requires r.Valid() && Indexes(idx) && c in idx.chunks
    ensures TermsScore(r, idx, terms, c) >= 0.0
    ensures TermsScore(r, idx, terms, c) != 0.0 <==> Matches(terms, c)
  {
    hide Indexes, TermScore;
    if terms != [] {
      var before, term := terms[..|terms| - 1], terms[|terms| - 1];
      ScoresWhenMatches(r, idx, before, c);
      assert forall t :: t in terms <==> t in before || t == term;
      if term in c.tf {
        TermScorePositive(r, idx, term, c);
      } else {
        assert TermScore(r, idx, term, c) == 0.0 by {
          NoTermScore(r, idx, term, c);
        }
      }
    }
  }

  lemma NoTermScore(r: Ranker, idx: Index, term: string, c: Chunk)
    requires Indexes(idx) && c in idx.chunks && term !in c.tf
    ensures TermScore(r, idx, term, c) == 0.0
  {
  }

  /** A query as it is searched for: its terms, its technical tokens, its normalised phrase, and the topic, if any. */
  datatype Query = Query(terms: seq<string>, technical: seq<string>, phrase: string, topic: string)

  function TechnicalBonus(technical: seq<string>, c: Chunk): (bonus: real)
    ensures bonus >= 0.0
  {
    if technical == [] then 0.0
    else TechnicalBonus(technical[..|technical| - 1], c)
         + if technical[|technical| - 1] in c.technical then TECHNICAL_BONUS else 0.0
  }

  /** The chunk is in the topic asked for, and scores. */
  predicate Hits(r: Ranker, idx: Index, q: Query, c: Chunk)
    requires Indexes(idx) && c in idx.chunks
  {
    (q.topic == "" || r.equalFold(c.section.topic, q.topic)) && TermsScore(r, idx, q.terms, c) != 0.0
  }

  /** Its score, once technical tokens, the phrase and the topic are weighed in. */
  function Score(r: Ranker, idx: Index, q: Query, c: Chunk): real
    requires Indexes(idx) && c in idx.chunks
  {
    var weighed := TermsScore(r, idx, q.terms, c) + TechnicalBonus(q.technical, c);
    var phrased := if q.phrase != "" && |q.terms| > 1 && r.contains(c.lowerText, q.phrase)
                   then weighed * PHRASE_BONUS else weighed;
    if r.equalFold(c.section.topic, CLI_TOPIC) then phrased * CLI_TOPIC_BOOST else phrased
  }

  lemma {:induction false} TechnicalBonusMeans(a: seq<string>, b: seq<string>, token: string, c: Chunk)
    ensures TechnicalBonus(a + b, c) == TechnicalBonus(a, c) + TechnicalBonus(b, c)
    ensures TechnicalBonus([token], c) == if token in c.technical then 1.5 else 0.0
  {
    assert [token][..0] == [];
    if b == [] {
      assert a + b == a;
    } else {
      TechnicalBonusMeans(a, b[..|b| - 1], token, c);
      assert (a + b)[..|a + b| - 1] == a + b[..|b| - 1];
    }
  }

  /** The terms and the bonus, doubled for a query of several terms that is in the chunk as it is, and half more in the
      topic of the command line. */
  lemma ScoreMeans(r: Ranker, idx: Index, q: Query, c: Chunk)
    requires Indexes(idx) && c in idx.chunks
    ensures Score(r, idx, q, c)
            == (TermsScore(r, idx, q.terms, c) + TechnicalBonus(q.technical, c))
               * (if q.phrase != "" && |q.terms| >= 2 && r.contains(c.lowerText, q.phrase) then 2.0 else 1.0)
               * (if r.equalFold(c.section.topic, "cli") then 1.5 else 1.0)
    ensures Hits(r, idx, q, c)
       <==> TermsScore(r, idx, q.terms, c) != 0.0 && (q.topic == "" || r.equalFold(c.section.topic, q.topic))
  {
    hide Indexes, TermsScore, TechnicalBonus;
  }

  function ResultOf(r: Ranker, idx: Index, q: Query, c: Chunk): Result
    requires Indexes(idx) && c in idx.chunks
  {
    Result(Id(c.section), 0, Score(r, idx, q, c), c.section, r.snippet(c.section.body, q.terms),
           Firsts(Matched(q.terms, c)))
  }

  /** The inner loop of Search: the score of the terms, and those that matched. */
  method ScoreTerms(r: Ranker, idx: Index, terms: seq<string>, c: Chunk) returns (score: real, matched: seq<string>)
    requires Indexes(idx) && c in idx.chunks
    ensures score == TermsScore(r, idx, terms, c) && matched == Matched(terms, c)
  {
    hide Indexes;
    score, matched := 0.0, [];
    for i := 0 to |terms|
      invariant score == TermsScore(r, idx, terms[..i], c) && matched == Matched(terms[..i], c)
    {
      var term := terms[i];
      assert terms[..i + 1][..i] == terms[..i];
      if term !in c.tf {
        continue;
      }
      AverageLength(idx, c, term);
      var f := c.tf[term];
      NormPositive(c, idx.avgdl, f);
      matched := matched + [term];
      var num := f as real * (K1 + 1.0);
      var den := f as real + K1 * (1.0 - B + B * c.length as real / idx.avgdl);
      score := score + Idf(r, idx.n, In(idx.df, term)) * num / den;
    }
    assert terms[..|terms|] == terms;
  }

  /** The body of the loop of Search over the chunks, up to the result it may add. */
  method ScoreChunk(r: Ranker, idx: Index, q: Query, c: Chunk) returns (res: Option<Result>)
    requires Indexes(idx) && c in idx.chunks
    ensures res == if Hits(r, idx, q, c) then Some(ResultOf(r, idx, q, c)) else None
  {
    hide Indexes, TermsScore, Firsts, Matched;
    if q.topic != "" && !r.equalFold(c.section.topic, q.topic) {
      return None;
    }
    var score, matched := ScoreTerms(r, idx, q.terms, c);
    if score == 0.0 {
      return None;
    }
    ghost var base := score;
    for i := 0 to |q.technical|
      invariant score == base + TechnicalBonus(q.technical[..i], c)
    {
      assert q.technical[..i + 1][..i] == q.technical[..i];
      if q.technical[i] in c.technical {
        score := score + TECHNICAL_BONUS;
      }
    }
    assert q.technical[..|q.technical|] == q.technical;
    if q.phrase != "" && |q.terms| > 1 && r.contains(c.lowerText, q.phrase) {
      score := score * PHRASE_BONUS;
    }
    if r.equalFold(c.section.topic, CLI_TOPIC) {
      score := score * CLI_TOPIC_BOOST;
    }
    var terms := Deduped(matched);
    res := Some(Result(Id(c.section), 0, score, c.section, r.snippet(c.section.body, q.terms), terms));
  }

  // ---------- The best chunk of each section ----------

  /** Chunk i gives id its result among the first n: no chunk of that id scores more, and none before it as much. */
  ghost predicate BestFor(r: Ranker, idx: Index, q: Query, n: nat, id: string, i: nat)
    requires Indexes(idx) && n <= |idx.chunks|
  {
    && i < n && Hits(r, idx, q, idx.chunks[i]) && Id(idx.chunks[i].section) == id
    && forall j | 0 <= j < n && Hits(r, idx, q, idx.chunks[j]) && Id(idx.chunks[j].section) == id ::
         var a, b := Score(r, idx, q, idx.chunks[i]), Score(r, idx, q, idx.chunks[j]);
         b <= a && (j < i ==> b < a)
  }

  /** best holds the result of each id the first n chunks give one. */
  ghost predicate Collects(r: Ranker, idx: Index, q: Query, n: nat, best: map<string, Result>)
    requires Indexes(idx) && n <= |idx.chunks|
  {
    && (forall j | 0 <= j < n && Hits(r, idx, q, idx.chunks[j]) :: Id(idx.chunks[j].section) in best)
    && forall id <- best :: exists i: nat ::
         i < |idx.chunks| && BestFor(r, idx, q, n, id, i) && best[id] == ResultOf(r, idx, q, idx.chunks[i])
  }

  /** The best chunk of an id stays so when the next one is of another, does not hit, or scores no more. */
  lemma BestStays(r: Ranker, idx: Index, q: Query, n: nat, id: string, i: nat)
    requires Indexes(idx) && n < |idx.chunks| && BestFor(r, idx, q, n, id, i)
    requires var c := idx.chunks[n];
             Hits(r, idx, q, c) && Id(c.section) == id ==> Score(r, idx, q, c) <= Score(r, idx, q, idx.chunks[i])
    ensures BestFor(r, idx, q, n + 1, id, i)
  {
    hide Indexes, Hits, Score, Id;
  }

  /** The next chunk is the best of its id when it scores more than the best so far. */
  lemma BestOver(r: Ranker, idx: Index, q: Query, n: nat, id: string, i: nat)
    requires Indexes(idx) && n < |idx.chunks| && BestFor(r, idx, q, n, id, i)
    requires Hits(r, idx, q, idx.chunks[n]) && Id(idx.chunks[n].section) == id
    requires Score(r, idx, q, idx.chunks[i]) < Score(r, idx, q, idx.chunks[n])
    ensures BestFor(r, idx, q, n + 1, id, n)
  {
    hide Indexes, Hits, Score, Id;
  }

  /** And when it is the first. */
  lemma BestChanges(r: Ranker, idx: Index, q: Query, n: nat, id: string, best: map<string, Result>)
    requires Indexes(idx) && n < |idx.chunks| && Collects(r, idx, q, n, best)
    requires Hits(r, idx, q, idx.chunks[n]) && Id(idx.chunks[n].section) == id
    requires id in best ==> best[id].score < Score(r, idx, q, idx.chunks[n])
    ensures BestFor(r, idx, q, n + 1, id, n)
  {
    hide Indexes, Hits, Score, Id;
    if id in best {
      hide BestFor;
      var i: nat :| i < |idx.chunks| && BestFor(r, idx, q, n, id, i) && best[id] == ResultOf(r, idx, q, idx.chunks[i]);
      BestOver(r, idx, q, n, id, i);
    }
  }

  lemma NextChunk(r: Ranker, idx: Index, q: Query, n: nat, best: map<string, Result>, best': map<string, Result>)
    requires Indexes(idx) && n < |idx.chunks| && Collects(r, idx, q, n, best)
    requires var c := idx.chunks[n]; var id := Id(c.section);
             best' == if !Hits(r, idx, q, c) || (id in best && best[id].score >= Score(r, idx, q, c)) then best
                      else best[id := ResultOf(r, idx, q, c)]
    ensures Collects(r, idx, q, n + 1, best')
  {
    hide Indexes, Hits, Score, Id, BestFor, ResultOf;
    var c := idx.chunks[n];
    forall id | id in best'
      ensures exists i: nat ::
        i < |idx.chunks| && BestFor(r, idx, q, n + 1, id, i) && best'[id] == ResultOf(r, idx, q, idx.chunks[i])
    {
      var i := BestAfter(r, idx, q, n, best, best', id);
    }
  }

  lemma BestAfter(r: Ranker, idx: Index, q: Query, n: nat, best: map<string, Result>, best': map<string, Result>,
                  id: string)
    returns (i: nat)
    requires Indexes(idx) && n < |idx.chunks| && Collects(r, idx, q, n, best) && id in best'
    requires var c := idx.chunks[n]; var id := Id(c.section);
             best' == if !Hits(r, idx, q, c) || (id in best && best[id].score >= Score(r, idx, q, c)) then best
                      else best[id := ResultOf(r, idx, q, c)]
    ensures i < |idx.chunks| && BestFor(r, idx, q, n + 1, id, i)
    ensures best'[id] == ResultOf(r, idx, q, idx.chunks[i])
  {
    hide Indexes, Hits, Score, Id, BestFor;
    var c := idx.chunks[n];
    if best' != best && id == Id(c.section) {
      BestChanges(r, idx, q, n, id, best);
      i := n;
    } else {
      i :| i < |idx.chunks| && BestFor(r, idx, q, n, id, i) && best[id] == ResultOf(r, idx, q, idx.chunks[i]);
      BestStays(r, idx, q, n, id, i);
    }
  }

  /** The loop of Search over one chunk. */
  method CollectChunk(r: Ranker, idx: Index, q: Query, i: nat, best: map<string, Result>)
    returns (best': map<string, Result>)
    requires Indexes(idx) && i < |idx.chunks| && Collects(r, idx, q, i, best)
    ensures Collects(r, idx, q, i + 1, best')
  {
    hide Indexes, Hits, Score, Id, Collects;
    var c := idx.chunks[i];
    var res := ScoreChunk(r, idx, q, c);
    best' := best;
    if res.Some? {
      var id := Id(c.section);
      if id !in best || best[id].score < res.value.score {
        best' := best[id := res.value];
      }
    }
    NextChunk(r, idx, q, i, best, best');
  }

  method Collect(r: Ranker, idx: Index, q: Query) returns (best: map<string, Result>)
    requires Indexes(idx)
    ensures Collects(r, idx, q, |idx.chunks|, best)
  {
    hide Indexes, BestFor, Hits;
    best := map[];
    for i := 0 to |idx.chunks|
      invariant Collects(r, idx, q, i, best)
    {
      best := CollectChunk(r, idx, q, i, best);
    }
  }

  // ---------- The order of results ----------

  /** a comes before b: by score, highest first, and then by id. */
  predicate Before(a: Result, b: Result) {
    a.score > b.score || (a.score == b.score && Less(a.id, b.id))
  }

  lemma BeforeTotal(a: Result, b: Result)
    ensures !(Before(a, b) && Before(b, a)) && !Before(a, a)
    ensures a.id != b.id ==> Before(a, b) || Before(b, a)
  {
    LessTotal(a.id, b.id);
  }

  lemma BeforeTransitive(a: Result, b: Result, c: Result)
    requires Before(a, b) && Before(b, c)
    ensures Before(a, c)
  {
    if a.score == c.score {
      LessTransitive(a.id, b.id, c.id);
    }
  }

  predicate Ordered(s: seq<Result>) {
    forall i, j | 0 <= i < j < |s| :: Before(s[i], s[j])
  }

  /** Results in order are determined by which they are. */
  lemma {:induction false} OneOrder(a: seq<Result>, b: seq<Result>)
    requires Ordered(a) && Ordered(b) && forall x :: x in a <==> x in b
    ensures a == b
  {
    hide Before;
    assert (a != [] ==> a[0] in a) && (b != [] ==> b[0] in b);
    if a != [] && b != [] {
      if a[0] != b[0] {
        var i :| 0 <= i < |b| && b[i] == a[0];
        var j :| 0 <= j < |a| && a[j] == b[0];
        assert Before(b[0], b[i]) && Before(a[0], a[j]);
        BeforeTotal(a[0], b[0]);
        assert false;
      }
      forall x
        ensures x in a[1..] <==> x in b[1..]
      {
        BeforeTotal(a[0], a[0]);
        assert x in a <==> x == a[0] || x in a[1..];
        assert x in b <==> x == b[0] || x in b[1..];
      }
      OneOrder(a[1..], b[1..]);
      assert a == [a[0]] + a[1..] && b == [b[0]] + b[1..];
    }
  }

  /** Puts x in its place among results in order. */
  method Insert(s: seq<Result>, x: Result) returns (t: seq<Result>)
    requires Ordered(s) && forall y <- s :: y.id != x.id
    ensures Ordered(t) && forall y :: y in t <==> y in s || y == x
  {
    hide Before;
    var i := 0;
    while i < |s| && Before(s[i], x)
      invariant 0 <= i <= |s| && forall j | 0 <= j < i :: Before(s[j], x)
    {
      i := i + 1;
    }
    t := s[..i] + [x] + s[i..];
    forall j | i <= j < |s|
      ensures Before(x, s[j])
    {
      BeforeTotal(s[i], x);
      if i < j {
        BeforeTransitive(x, s[i], s[j]);
      }
    }
    assert s == s[..i] + s[i..];
  }

  // ---------- The whole search ----------

  /** all is one result, that of its best chunk, for each section id some chunk of which hits, in order. */
  ghost predicate Ranking(r: Ranker, idx: Index, q: Query, all: seq<Result>)
    requires Indexes(idx)
  {
    && Ordered(all)
    && (forall c <- idx.chunks :: Hits(r, idx, q, c) ==> exists x <- all :: x.id == Id(c.section))
    && forall x <- all :: exists i: nat ::
         i < |idx.chunks| && BestFor(r, idx, q, |idx.chunks|, x.id, i) && x == ResultOf(r, idx, q, idx.chunks[i])
  }

  /** The chunk a result is that of. */
  lemma ChunkBehind(r: Ranker, idx: Index, q: Query, all: seq<Result>, x: Result) returns (i: nat)
    requires Indexes(idx) && Ranking(r, idx, q, all) && x in all
    ensures i < |idx.chunks| && BestFor(r, idx, q, |idx.chunks|, x.id, i) && x == ResultOf(r, idx, q, idx.chunks[i])
    ensures Hits(r, idx, q, idx.chunks[i]) && Id(idx.chunks[i].section) == x.id
  {
    hide Indexes, Score, Ordered, Hits, Id;
    i :| i < |idx.chunks| && BestFor(r, idx, q, |idx.chunks|, x.id, i) && x == ResultOf(r, idx, q, idx.chunks[i]);
  }

  /** The result of a chunk's section. */
  lemma ResultFor(r: Ranker, idx: Index, q: Query, all: seq<Result>, i: nat) returns (x: Result)
    requires Indexes(idx) && Ranking(r, idx, q, all) && i < |idx.chunks| && Hits(r, idx, q, idx.chunks[i])
    ensures x in all && x.id == Id(idx.chunks[i].section)
  {
    hide Indexes, Score, Ordered, Hits, Id, BestFor;
    x :| x in all && x.id == Id(idx.chunks[i].section);
  }

  /** Of the chunks of its section that hit, a result is that of one that no other outscores, and none before equals. */
  lemma RankedIsBest(r: Ranker, idx: Index, q: Query, all: seq<Result>, x: Result) returns (i: nat)
    requires Indexes(idx) && Ranking(r, idx, q, all) && x in all
    ensures i < |idx.chunks|
    ensures var c := idx.chunks[i];
            && Hits(r, idx, q, c) && x.id == Id(c.section) && x.section == c.section
            && x.score == Score(r, idx, q, c) && x.snippet == r.snippet(c.section.body, q.terms)
            && x.matchedTerms == Firsts(Matched(q.terms, c))
            && forall j |
                 0 <= j < |idx.chunks| && Hits(r, idx, q, idx.chunks[j]) && Id(idx.chunks[j].section) == x.id ::
                 Score(r, idx, q, idx.chunks[j]) <= x.score && (j < i ==> Score(r, idx, q, idx.chunks[j]) < x.score)
  {
    hide Indexes, Score, Ordered, Hits, Id;
    i := ChunkBehind(r, idx, q, all, x);
  }

  /** A ranking goes by score, highest first, and by id among equals; no two results have the same id. */
  lemma RankedInOrder(r: Ranker, idx: Index, q: Query, all: seq<Result>, i: nat, j: nat)
    requires Indexes(idx) && Ranking(r, idx, q, all) && i < j < |all|
    ensures all[i].score > all[j].score || (all[i].score == all[j].score && Less(all[i].id, all[j].id))
    ensures all[i].id != all[j].id
  {
    hide Indexes, Score, Hits, Id, ResultOf, BestFor;
    if all[i].id == all[j].id {
      var m := ChunkBehind(r, idx, q, all, all[i]);
      var n := ChunkBehind(r, idx, q, all, all[j]);
      OneBest(r, idx, q, all[i].id, m, n);
      BeforeTotal(all[i], all[j]);
    }
  }

  lemma RankingWithin(r: Ranker, idx: Index, q: Query, a: seq<Result>, b: seq<Result>, x: Result)
    requires Indexes(idx) && Ranking(r, idx, q, a) && Ranking(r, idx, q, b) && x in a
    ensures x in b
  {
    hide Indexes, Score, Ordered, Hits, Id, BestFor, Ranking, ResultOf;
    var i := ChunkBehind(r, idx, q, a, x);
    var y := ResultFor(r, idx, q, b, i);
    var j := ChunkBehind(r, idx, q, b, y);
    OneBest(r, idx, q, x.id, i, j);
  }

  lemma OneBest(r: Ranker, idx: Index, q: Query, id: string, i: nat, j: nat)
    requires Indexes(idx)
    requires BestFor(r, idx, q, |idx.chunks|, id, i) && BestFor(r, idx, q, |idx.chunks|, id, j)
    ensures i == j
  {
    hide Indexes, Hits, Score, Id;
  }

  /** There is one ranking, so no order in which the best results are collected or sorted changes it. */
  lemma OneRanking(r: Ranker, idx: Index, q: Query, a: seq<Result>, b: seq<Result>)
    requires Indexes(idx) && Ranking(r, idx, q, a) && Ranking(r, idx, q, b)
    ensures a == b
  {
    forall x | x in a
      ensures x in b
    {
      RankingWithin(r, idx, q, a, b, x);
    }
    forall x | x in b
      ensures x in a
    {
      RankingWithin(r, idx, q, b, a, x);
    }
    OneOrder(a, b);
  }

  /** The best results, in any order of the map, sorted. */
  method Sorted(best: map<string, Result>) returns (out: seq<Result>)
    requires forall id <- best :: best[id].id == id
    ensures Ordered(out) && forall x :: x in out <==> x.id in best && best[x.id] == x
  {
    hide Ordered;
    out := [];
    NothingOrdered();
    var rest := best.Keys;
    while rest != {}
      invariant rest <= best.Keys && Ordered(out)
      invariant forall x :: x in out <==> x.id in best && x.id !in rest && best[x.id] == x
      decreases rest
    {
      var id :| id in rest;
      rest := rest - {id};
      out := Insert(out, best[id]);
    }
  }

  lemma NothingOrdered()
    ensures Ordered([])
  {
  }

  /** The first limit results, or all of them when limit is not positive, numbered from 1. */
  function Top(all: seq<Result>, limit: int): seq<Result> {
    var kept := if limit > 0 && |all| > limit then all[..limit] else all;
    seq(|kept|, k requires 0 <= k < |kept| => kept[k].(rank := k + 1))
  }

  /**
   With a limit the first that many are kept, or all when there are no more; the kth kept is the kth but for its rank,
   k + 1, and what is left out comes after all that is kept.
   */
  lemma TopMeans(all: seq<Result>, limit: int, out: seq<Result>)
    requires Ordered(all) && out == Top(all, limit)
    ensures |out| == if 0 < limit < |all| then limit else |all|
    ensures forall k | 0 <= k < |out| ::
              && out[k].rank == k + 1 && out[k].id == all[k].id && out[k].score == all[k].score
              && out[k].section == all[k].section && out[k].snippet == all[k].snippet
              && out[k].matchedTerms == all[k].matchedTerms
    ensures forall k, x | 0 <= k < |out| && x in all[|out|..] ::
              all[k].score > x.score || (all[k].score == x.score && Less(all[k].id, x.id))
  {
    forall k, x | 0 <= k < |out| && x in all[|out|..]
      ensures Before(all[k], x)
    {
      var j :| |out| <= j < |all| && all[j] == x;
    }
  }

  function QueryFor(r: Ranker, query: string, topic: string): Query {
    var tokens := r.language.tokenize(query);
    Query(Firsts(tokens.words + tokens.technical), tokens.technical, r.language.normalize(query), topic)
  }

  /** The terms of a query are its words and technical tokens, each once, in order. */
  lemma QueryMeans(r: Ranker, query: string, topic: string)
    ensures var q, tokens := QueryFor(r, query, topic), r.language.tokenize(query);
            && q.terms == Firsts(tokens.words + tokens.technical) && q.technical == tokens.technical
            && q.phrase == r.language.normalize(query) && q.topic == topic
            && forall term :: term in q.terms <==> term in tokens.words || term in tokens.technical
  {
  }

  method Search(r: Ranker, idx: Index, query: string, topic: string, limit: int)
    returns (out: seq<Result>)
    requires Indexes(idx)
    ensures exists all :: Ranking(r, idx, QueryFor(r, query, topic), all) && out == Top(all, limit)
  {
    hide Indexes, Hits, Score, Id, Ordered, Ranking, Collects;
    var tokens := r.language.tokenize(query);
    var terms := Deduped(tokens.words + tokens.technical);
    var q := Query(terms, tokens.technical, r.language.normalize(query), topic);
    if |terms| == 0 {
      NoTerms(r, idx, q);
      assert Top([], limit) == [];
      return [];
    }
    var best := Collect(r, idx, q);
    CollectedIds(r, idx, q, best);
    out := Sorted(best);
    CollectedRanks(r, idx, q, best, out);
    ghost var all := out;
    if limit > 0 && |out| > limit {
      out := out[..limit];
    }
    out := Number(out);
    assert out == Top(all, limit);
  }

  /** Ranks from 1. */
  method Number(kept: seq<Result>) returns (out: seq<Result>)
    ensures out == Top(kept, 0)
  {
    out := kept;
    for i := 0 to |out|
      invariant |out| == |kept|
      invariant forall k | 0 <= k < |out| :: out[k] == if k < i then kept[k].(rank := k + 1) else kept[k]
    {
      out := out[i := out[i].(rank := i + 1)];
    }
  }

  lemma NoTerms(r: Ranker, idx: Index, q: Query)
    requires Indexes(idx) && q.terms == []
    ensures Ranking(r, idx, q, [])
  {
  }

  lemma CollectedIds(r: Ranker, idx: Index, q: Query, best: map<string, Result>)
    requires Indexes(idx) && Collects(r, idx, q, |idx.chunks|, best)
    ensures forall id <- best :: best[id].id == id
  {
    hide Indexes, Hits, Score, Id;
    forall id | id in best
      ensures best[id].id == id
    {
      var i: nat :|
        i < |idx.chunks| && BestFor(r, idx, q, |idx.chunks|, id, i) && best[id] == ResultOf(r, idx, q, idx.chunks[i]);
    }
  }

  lemma CollectedRanks(r: Ranker, idx: Index, q: Query, best: map<string, Result>, out: seq<Result>)
    requires Indexes(idx) && Collects(r, idx, q, |idx.chunks|, best) && Ordered(out)
    requires (forall id <- best :: best[id].id == id) && forall x :: x in out <==> x.id in best && best[x.id] == x
    ensures Ranking(r, idx, q, out)
  {
    hide Indexes, Hits, Score, Id, Ordered, BestFor;
    forall c | c in idx.chunks && Hits(r, idx, q, c)
      ensures exists x <- out :: x.id == Id(c.section)
    {
      var j :| 0 <= j < |idx.chunks| && idx.chunks[j] == c;
      assert best[Id(c.section)] in out;
    }
  }

  /** A section is among the results exactly when it is in the topic asked for and one of its chunks holds a term. */
  lemma FoundWhenMatching(r: Ranker, idx: Index, q: Query, all: seq<Result>, id: string)
    requires r.Valid() && Indexes(idx) && Ranking(r, idx, q, all)
    ensures (exists x <- all :: x.id == id)
       <==> exists c <- idx.chunks :: && Id(c.section) == id && Matches(q.terms, c)
                                      && (q.topic == "" || r.equalFold(c.section.topic, q.topic))
  {
    hide Indexes, Score, Id, Ordered, TermsScore, Matches, Ranking, BestFor, ResultOf;
    if x :| x in all && x.id == id {
      var i := ChunkBehind(r, idx, q, all, x);
      ScoresWhenMatches(r, idx, q.terms, idx.chunks[i]);
      assert idx.chunks[i] in idx.chunks;
    }
    if c :| c in idx.chunks && Id(c.section) == id && Matches(q.terms, c)
            && (q.topic == "" || r.equalFold(c.section.topic, q.topic)) {
      ScoresWhenMatches(r, idx, q.terms, c);
      var i :| 0 <= i < |idx.chunks| && idx.chunks[i] == c;
      var x := ResultFor(r, idx, q, all, i);
    }
  }
}
