/**
 What the service answers while syncs may publish other snapshots (Search and Get in internal/docs/service.go): the
 results of one live snapshot, and documents and sections of another or the same; so ids of results lead back.
 */
module DocsAnswers {
  import opened Wrappers
  import opened Collections
  import opened Strings
  import opened Anchors
  import opened DocsParse
  import opened DocsSections
  import opened DocsIndex
  import opened DocsSearch
  import opened DocsCache
  import opened DocsService
  import opened DocsGet

  /** NewIndex, as what the service builds its resident index by. */
  function Builder(r: Ranker): seq<Section> -> Index {
    sections => IndexFor(r.language, sections)
  }

  // ---------- Search ----------

  /** The results of a query are those of the ranking of a published snapshot's sections. */
  ghost predicate Answers(env: Env, t: Text, r: Ranker, p: Published, query: string, topic: string, limit: int,
                          out: seq<Result>)
    requires Present(env, p)
  {
    var idx := IndexFor(r.language, SectionsOf(env, t, p));
    exists all :: Ranking(r, idx, QueryFor(r, query, topic), all) && out == Top(all, limit)
  }

  /** They are of the snapshot n, which was live at moment i. */
  ghost predicate AnswersAt(env: Env, t: Text, r: Ranker, world: World, i: nat, n: Name, query: string, topic: string,
                            limit: int, out: seq<Result>) {
    && PointerName(world(i).disk) == Some(n) && n in world(i).history && Present(env, world(i).history[n])
    && Answers(env, t, r, world(i).history[n], query, topic, limit, out)
  }

  lemma IndexIsOfLive(env: Env, t: Text, r: Ranker, world: World, i: nat, idx: Index)
    requires Evolves(env, world) && IsIndexAt(env, t, Builder(r), world, i, idx)
    ensures PointerName(world(i).disk).Some?
    ensures var n := PointerName(world(i).disk).value;
            && n in world(i).history && Present(env, world(i).history[n])
            && idx == IndexFor(r.language, SectionsOf(env, t, world(i).history[n]))
  {
    hide Evolves, Present, SectionsOf, IndexFor;
    CurrentIsPublished(env, world, i);
  }

  /** Search: every list of results is that of a snapshot live at some moment of the call. */
  method Search(service: Service<Index>, r: Ranker, world: World, clock: nat, query: string, topic: string, limit: int,
                offline: bool, synced: bool, ghost files: nat)
    returns (out: Option<seq<Result>>, clock': nat)
    requires Evolves(service.env, world) && Countable(world) && service.Valid(world, clock)
    requires service.build == Builder(r)
    modifies service
    ensures clock < clock' && service.Valid(world, clock')
    ensures out.Some? ==> exists i, n | clock <= i < clock' ::
              AnswersAt(service.env, service.text, r, world, i, n, query, topic, limit, out.value)
    ensures out.None? ==>
              || (!Exists(world, clock) && (offline || !synced)) || PointerName(world(clock + 2).disk).None?
              || PointerName(world(clock' - 1).disk).None? || Moves(world, clock + 2, clock') >= 3
  {
    hide Evolves, Countable, IsIndexAt, Indexes, Ranking, SectionsOf, Present, Moves, IndexFor, ListsAtMost, Exists,
         PointerName;
    var idx;
    idx, clock' := service.ResolveIndex(world, clock, offline, synced, files);
    if idx.None? {
      return None, clock';
    }
    ghost var i :| clock <= i < clock' && IsIndexAt(service.env, service.text, service.build, world, i, idx.value);
    IndexIsOfLive(service.env, service.text, r, world, i, idx.value);
    IndexIsSound(r, SectionsOf(service.env, service.text, world(i).history[PointerName(world(i).disk).value]));
    var found := DocsSearch.Search(r, idx.value, query, topic, limit);
    assert AnswersAt(service.env, service.text, r, world, i, PointerName(world(i).disk).value, query, topic, limit,
                     found);
    out := Some(found);
  }

  lemma IndexIsSound(r: Ranker, sections: seq<Section>)
    ensures Indexes(IndexFor(r.language, sections))
  {
  }

  // ---------- Get ----------

  /** What Get returns for an id is what the snapshot n has for it, which was live at moment i. */
  ghost predicate GetsAt(env: Env, t: Text, world: World, i: nat, n: Name, id: string, r: GetResult) {
    && PointerName(world(i).disk) == Some(n) && n in world(i).history
    && Gets(t, env.clean, world(i).history[n].content, id, r)
  }

  /** The files of a snapshot that can be read now, by clean path. */
  function FilesNow(d: Disk, n: Name): map<string, string> {
    if n in d.snaps then map path | path in d.snaps[n].files :: Bytes(d.snaps[n].files[path]) else map[]
  }

  lemma FilesAsPublished(env: Env, world: World, i: nat, j: nat, n: Name)
    requires Evolves(env, world) && i <= j && n in world(i).history
    ensures forall path <- FilesNow(world(j).disk, n) :: path in world(i).history[n].content
              && FilesNow(world(j).disk, n)[path] == world(i).history[n].content[path]
    ensures PointerName(world(j).disk) == Some(n) ==>
              forall path <- world(i).history[n].content :: path in FilesNow(world(j).disk, n)
  {
    hide Reaches, WriterInv, LiveInv, Evolves;
    Remembered(env, world, i, j, n);
    AlwaysInv(env, world, j);
  }

  /** A part of a snapshot's files gives what the whole does, or nothing. */
  lemma GetsOfPart(t: Text, clean: Clean, part: map<string, string>, whole: map<string, string>, id: string,
                   r: GetResult)
    requires forall path <- part :: path in whole && part[path] == whole[path]
    requires Gets(t, clean, part, id, r)
    ensures Gets(t, clean, whole, id, r) || r == NotFound
    ensures whole.Keys <= part.Keys ==> Gets(t, clean, whole, id, r)
  {
    hide GetsFrom, SplitId, TrimSpace;
  }

  lemma CountableNow(world: World, i: nat, n: Name, files: map<string, string>)
    requires Countable(world) && n in world(i).history
    requires forall path <- files ::
               path in world(i).history[n].content && files[path] == world(i).history[n].content[path]
    ensures forall path <- files :: |DocLines(files[path])| < MAX_INT
  {
    hide DocLines;
  }

  /**
   Get: the document or section the snapshot had that was live when it was opened, or not found once others were
   published; and what it had for certain while it stays live.
   */
  method Get(env: Env, t: Text, world: World, clock: nat, id: string, offline: bool, synced: bool)
    returns (r: Option<GetResult>, clock': nat, ghost n: Name)
    requires Evolves(env, world) && Countable(world) && t.atx("").None?
    ensures clock < clock'
    ensures !Exists(world, clock) && (offline || !synced) ==> r.None?
    ensures r.Some? ==>
              || (r.value == InvalidId && TrimSpace(SplitId(id).0) == "")
              || (r.value == NotFound && !Unraced(world, clock + 2, clock'))
              || GetsAt(env, t, world, clock + 2, n, id, r.value)
    ensures Exists(world, clock) || (!offline && synced) ==> Unraced(world, clock + 2, clock') ==> r.Some?
  {
    hide Evolves, Countable, Exists, PointerName, Unraced, ReadManifest, Gets, SplitId, TrimSpace, FilesNow, DocLines;
    r, clock', n := None, clock + 2, "";
    if !Exists(world, clock) {
      if offline || !synced {
        return;
      }
    }
    var (path, _) := SplitId(id);
    if TrimSpace(path) == "" {
      return Some(InvalidId), clock', n;
    }
    var pointer := PointerName(world(clock').disk);
    clock' := clock' + 1;
    if pointer.None? || ReadManifest(world(clock').disk, pointer.value).None? {
      if pointer.Some? {
        CurrentIsPublished(env, world, clock' - 1);
        MissingIsRaced(env, world, clock' - 1, clock', pointer.value);
      } else {
        NothingLive(world, clock' - 1, clock' + 1);
      }
      return None, clock' + 1, n;
    }
    n, clock' := pointer.value, clock' + 1;
    CurrentIsPublished(env, world, clock + 2);
    var files := FilesNow(world(clock').disk, pointer.value);
    FilesAsPublished(env, world, clock + 2, clock', n);
    CountableNow(world, clock + 2, n, files);
    var found := DocsGet.Get(t, env.clean, files, id);
    GetsOfPart(t, env.clean, files, world(clock + 2).history[n].content, id, found);
    RacedWhenGone(world, clock + 2, clock', n);
    r, clock' := Some(found), clock' + 1;
  }

  lemma RacedWhenGone(world: World, i: nat, j: nat, n: Name)
    requires i <= j && PointerName(world(i).disk) == Some(n)
    ensures PointerName(world(j).disk) == Some(n) || !Unraced(world, i, j + 1)
  {
  }

  // ---------- Results lead back ----------

  /** A section of a snapshot is one of a document it lists. */
  lemma {:induction false} SectionOfFile(env: Env, t: Text, p: Published, k: nat, s: Section)
    returns (e: FileEntry, j: nat)
    requires Present(env, p) && k <= |p.files| && s in FirstSections(env, t, p, k)
    ensures e in p.files && env.clean(e.path).Some? && env.clean(e.path).value in p.content
    ensures var ss := Parsed(t, e.path, p.content[env.clean(e.path).value]); j < |ss| && ss[j] == s
  {
    hide Parsed;
    e := p.files[k - 1];
    var ss := Parsed(t, e.path, p.content[env.clean(e.path).value]);
    if s in ss {
      j :| 0 <= j < |ss| && ss[j] == s;
    } else {
      e, j := SectionOfFile(env, t, p, k - 1, s);
    }
  }

  /** A result is of a section of the snapshot searched. */
  lemma ResultIsSection(env: Env, t: Text, r: Ranker, p: Published, query: string, topic: string, limit: int,
                        out: seq<Result>, k: nat)
    requires Present(env, p) && Answers(env, t, r, p, query, topic, limit, out) && k < |out|
    ensures out[k].section in SectionsOf(env, t, p) && out[k].id == Id(out[k].section) && out[k].rank == k + 1
  {
    hide Present, SectionsOf, DocsSearch.Ordered, Score, Indexes, IndexFor, Ranking, Hits, BestFor;
    var ss := SectionsOf(env, t, p);
    IndexIsSound(r, ss);
    IndexIsOfSections(r, ss);
    var idx := IndexFor(r.language, ss);
    var all :| Ranking(r, idx, QueryFor(r, query, topic), all) && out == Top(all, limit);
    assert all[k] in all;
    var i := ChunkBehind(r, idx, QueryFor(r, query, topic), all, all[k]);
    assert idx.chunks[i] in idx.chunks;
  }

  lemma IndexIsOfSections(r: Ranker, sections: seq<Section>)
    ensures forall c <- IndexFor(r.language, sections).chunks :: c.section in sections
  {
    hide ChunksOf, Counts;
    ChunksCover(r.language, sections, IndexFor(r.language, sections).chunks);
  }

  lemma {:induction false} InFlatten<T>(parts: seq<seq<T>>, i: nat, j: nat) returns (k: nat)
    requires i < |parts| && j < |parts[i]|
    ensures k < |Flatten(parts)| && Flatten(parts)[k] == parts[i][j]
  {
    if i == 0 {
      k := j;
    } else {
      k := InFlatten(parts[1..], i - 1, j);
      k := |parts[0]| + k;
    }
  }

  /** A section of a document that a snapshot lists is one of the snapshot's. */
  lemma ListedIsRead(env: Env, t: Text, p: Published, i: nat, j: nat) returns (k: nat)
    requires Present(env, p) && i < |p.files|
    requires j < |Parsed(t, p.files[i].path, p.content[env.clean(p.files[i].path).value])|
    ensures k < |SectionsOf(env, t, p)|
    ensures SectionsOf(env, t, p)[k] == Parsed(t, p.files[i].path, p.content[env.clean(p.files[i].path).value])[j]
  {
    hide Parsed, SectionsOf;
    var parts := seq(|p.files|, n requires 0 <= n < |p.files| =>
      Parsed(t, p.files[n].path, p.content[env.clean(p.files[n].path).value]));
    SectionsMean(env, t, p, parts);
    k := InFlatten(parts, i, j);
  }

  /** A token of one of the windows of a section's body, or of its title, its headings or its document's path. */
  ghost predicate HasToken(l: Language, s: Section, w: nat, term: string)
    requires w < |Windows(s.body)|
  {
    exists text <- [Windows(s.body)[w], s.title, Join(s.headingPath, " "), l.pathTokens(s.docPath)] ::
      term in l.tokenize(text).words || term in l.tokenize(text).technical
  }

  /** Each window of each section has a chunk, which holds the tokens there are. */
  lemma WindowIsIndexed(l: Language, sections: seq<Section>, k: nat, w: nat, term: string) returns (c: Chunk)
    requires k < |sections| && w < |Windows(sections[k].body)| && HasToken(l, sections[k], w, term)
    ensures c in IndexFor(l, sections).chunks && c.section == sections[k] && term in c.tf
  {
    hide Windows, Built, IndexFor, Flatten;
    var chunks := IndexFor(l, sections).chunks;
    var groups := ChunksMean(l, sections, chunks);
    var n := InFlatten(groups, k, w);
    c := groups[k][w];
    ChunkMeans(l, sections[k], Windows(sections[k].body)[w], c, term);
  }

  /**
   A section of a document that the snapshot lists is among the results when a word of the query is one of its tokens
   and it is in the topic asked for, but for those past the limit.
   */
  lemma SectionIsFound(env: Env, t: Text, r: Ranker, p: Published, query: string, topic: string, limit: int,
                       out: seq<Result>, i: nat, j: nat, w: nat, term: string)
    requires Present(env, p) && Answers(env, t, r, p, query, topic, limit, out) && r.Valid() && i < |p.files|
    requires j < |Parsed(t, p.files[i].path, p.content[env.clean(p.files[i].path).value])|
    requires var s := Parsed(t, p.files[i].path, p.content[env.clean(p.files[i].path).value])[j];
             && w < |Windows(s.body)| && HasToken(r.language, s, w, term)
             && (topic == "" || r.equalFold(s.topic, topic))
    requires term in r.language.tokenize(query).words || term in r.language.tokenize(query).technical
    ensures var s := Parsed(t, p.files[i].path, p.content[env.clean(p.files[i].path).value])[j];
            (exists x <- out :: x.id == Id(s)) || (limit > 0 && |out| == limit)
  {
    hide Parsed, SectionsOf, Present, DocsSearch.Ordered, Score, Indexes, IndexFor, Ranking, Hits, BestFor, Windows,
         HasToken, Top, Id, QueryFor;
    var sections, q := SectionsOf(env, t, p), QueryFor(r, query, topic);
    var k := ListedIsRead(env, t, p, i, j);
    var c := WindowIsIndexed(r.language, sections, k, w, term);
    IndexIsSound(r, sections);
    var idx := IndexFor(r.language, sections);
    var all: seq<Result> :| Ranking(r, idx, q, all) && out == Top(all, limit);
    QueryMeans(r, query, topic);
    FoundWhenMatching(r, idx, q, all, Id(sections[k]));
    var x: Result :| x in all && x.id == Id(sections[k]);
    RankedTop(r, idx, q, all, limit, out);
    if |out| == |all| {
      var n :| 0 <= n < |all| && all[n] == x;
      assert out[n] in out;
    }
  }

  lemma RankedTop(r: Ranker, idx: Index, q: Query, all: seq<Result>, limit: int, out: seq<Result>)
    requires Indexes(idx) && Ranking(r, idx, q, all) && out == Top(all, limit)
    ensures |out| == (if 0 < limit < |all| then limit else |all|) && forall n | 0 <= n < |out| :: out[n].id == all[n].id
  {
    hide Indexes, Score, Hits, Id, ResultOf, BestFor, DocsSearch.Ordered;
    TopMeans(all, limit, out);
  }

  /** What Get returns for the id of a section found: the section, or the whole document for a preamble. */
  function Found(t: Text, s: Section, content: string): GetResult {
    if s.level > 0 then OneSection(s) else DocsGet.Whole(t, s.docPath, content)
  }

  /** When the id of a section leads back to it. */
  predicate LeadsBack(s: Section) {
    s.docPath != "" && !IsSpace(s.docPath[0]) && '#' !in s.docPath
    && (s.level == 0 ==> !IsSpace(s.docPath[|s.docPath| - 1]))
  }

  /**
   Every result's section is of a document that the snapshot searched lists, and Get of its id from that snapshot is
   that section, or for a preamble that document, if and only if the document's path is one that ids can be split at.
   */
  lemma ResultLeadsBack(env: Env, t: Text, r: Ranker, p: Published, query: string, topic: string, limit: int,
                        out: seq<Result>, k: nat, g: GetResult)
    requires Present(env, p) && Answers(env, t, r, p, query, topic, limit, out) && k < |out|
    requires Gets(t, env.clean, p.content, out[k].id, g)
    ensures var s := out[k].section;
            && (exists e <- p.files :: e.path == s.docPath)
            && env.clean(s.docPath).Some? && env.clean(s.docPath).value in p.content
            && (g == Found(t, s, p.content[env.clean(s.docPath).value]) <==> LeadsBack(s))
  {
    hide Sections, TitleOf, Answers, Gets, Present, SplitId;
    ResultIsSection(env, t, r, p, query, topic, limit, out, k);
    var s := out[k].section;
    var e, j := SectionOfFile(env, t, p, |p.files|, s);
    var content := p.content[env.clean(e.path).value];
    SectionPath(t, DocOf(t, e.path, content), j);
    if s.level > 0 {
      IdLeadsBack(t, env.clean, p.content, e.path, content, j, g);
    } else {
      PreambleIdIsDocument(t, env.clean, p.content, e.path, content, j, g);
    }
  }

  /**
   End to end: an id from a search, taken to Get at any later time at which the snapshot searched is still the live
   one, gives the section it was found for.
   */
  lemma SearchThenGet(env: Env, t: Text, r: Ranker, world: World, i: nat, j: nat, n: Name, query: string, topic: string,
                      limit: int, out: seq<Result>, k: nat, g: GetResult)
    requires Evolves(env, world) && i <= j && AnswersAt(env, t, r, world, i, n, query, topic, limit, out) && k < |out|
    requires GetsAt(env, t, world, j, n, out[k].id, g) && LeadsBack(out[k].section)
    ensures var s, p := out[k].section, world(i).history[n];
            && env.clean(s.docPath).Some? && env.clean(s.docPath).value in p.content
            && g == Found(t, s, p.content[env.clean(s.docPath).value])
  {
    hide Evolves, Present, Answers, Gets, PointerName, LeadsBack;
    Remembered(env, world, i, j, n);
    ResultLeadsBack(env, t, r, world(i).history[n], query, topic, limit, out, k, g);
  }
}
