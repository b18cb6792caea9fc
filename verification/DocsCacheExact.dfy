/**
 When the live snapshot of the docs cache has what its listing says. The cache writes a file under the clean form of
 its path (safeRelPath in internal/docs/cache.go), which " a.md" and "a.md" share. Of two such files the last one
 written stays, and a later sync may reuse what it finds there for either.
 */
module DocsCacheExact {
  import opened Wrappers
  import opened DocsCache

  ghost predicate HasContent(env: Env, sha: string) {
    exists content :: env.hash(content) == sha
  }

  /** A listing all of which can be written. */
  ghost predicate Servable(env: Env, files: seq<FileEntry>) {
    files != [] && forall e <- files :: env.clean(e.path).Some? && HasContent(env, e.sha)
  }

  ghost predicate AllServable(env: Env, published: seq<seq<FileEntry>>) {
    forall files <- published :: Servable(env, files)
  }

  /** Some run publishes these listings, in this order. */
  ghost predicate Publishable(env: Env, published: seq<seq<FileEntry>>) {
    exists s :: Reaches(env, NO_CACHE, s) && s.published == published
  }

  /** The live snapshot has everything its manifest lists. */
  ghost predicate LiveComplete(env: Env, d: Disk) {
    Readable(d) && Complete(env, d.snaps[d.pointer.value.value])
  }

  // ---------- Only servable listings are published ----------

  ghost predicate Written(env: Env, files: seq<FileEntry>, pending: set<FileEntry>) {
    files != [] && forall e <- files :: e in pending || (env.clean(e.path).Some? && HasContent(env, e.sha))
  }

  ghost predicate ServableInv(env: Env, s: State) {
    && AllServable(env, s.published)
    && match s.writer
       case Staging(_, m, todo, writing, _) => Written(env, m.files, todo + writing)
       case WritingManifest(_, m) => Servable(env, m.files)
       case WritingPointer(_, m) => Servable(env, m.files)
       case PointerReady(_, m) => Servable(env, m.files)
       case _ => true
  }

  lemma StepKeepsServable(env: Env, s: State, step: Step)
    requires Inv(env, s) && ServableInv(env, s) && Enabled(env, s, step)
    ensures ServableInv(env, After(env, s, step))
  {
    hide LiveInv, HistoryInv, WriterInv;
    if step.FinishReused? {
      assert Servable(env, s.published[|s.published| - 1]) && step.entry in s.published[|s.published| - 1];
    }
  }

  lemma {:induction false} RunKeepsServable(env: Env, s: State, steps: seq<Step>, s': State)
    requires Inv(env, s) && ServableInv(env, s) && Runs(env, s, steps, s')
    ensures ServableInv(env, s')
    decreases |steps|
  {
    hide Inv, ServableInv, Enabled, After;
    if steps != [] {
      StepKeepsInv(env, s, steps[0]);
      StepKeepsServable(env, s, steps[0]);
      RunKeepsServable(env, After(env, s, steps[0]), steps[1..], s');
    }
  }

  // ---------- Building runs ----------

  lemma ReachesThen(env: Env, s: State, m: State, step: Step)
    requires Reaches(env, s, m) && Enabled(env, m, step)
    ensures Reaches(env, s, After(env, m, step))
  {
    hide Runs, Enabled, After;
    var steps :| Runs(env, s, steps, m);
    RunsThen(env, s, steps, m, step);
  }

  lemma ReachesInv(env: Env, s: State)
    requires Reaches(env, NO_CACHE, s)
    ensures Inv(env, s)
  {
    hide Runs, Enabled, After;
    var steps :| Runs(env, NO_CACHE, steps, s);
    RunKeepsInv(env, NO_CACHE, steps, s);
  }


  lemma FreshName(names: set<Name>) returns (name: Name)
    ensures name !in names
  {
    var longest := LongerThan(names);
    name := seq(longest, _ => '0');
  }

  lemma LongerThan(names: set<Name>) returns (k: nat)
    ensures forall n <- names :: |n| < k
    decreases names
  {
    if names == {} {
      k := 0;
    } else {
      var n :| n in names;
      var rest := LongerThan(names - {n});
      k := if |n| < rest then rest else |n| + 1;
      assert names == (names - {n}) + {n};
    }
  }

  /** s' is s with entries done written, and nothing but the files under their clean paths changed. */
  ghost predicate Advanced(env: Env, s: State, s': State, done: set<FileEntry>) {
    && s.writer.Staging? && s.writer.name in s.disk.snaps && s.writer.name in s'.disk.snaps
    && s'.writer == s.writer.(todo := s.writer.todo - done)
    && s'.disk.pointer == s.disk.pointer && s'.history == s.history && s'.published == s.published
    && (forall n <- s.disk.snaps :: n != s.writer.name ==> n in s'.disk.snaps && s'.disk.snaps[n] == s.disk.snaps[n])
    && forall path | (forall e <- done :: env.clean(e.path) != Some(path)) ::
         SameFile(s.disk.snaps[s.writer.name].files, s'.disk.snaps[s.writer.name].files, path)
  }

  predicate SameFile(a: map<string, File<string>>, b: map<string, File<string>>, path: string) {
    (path in a <==> path in b) && (path in a ==> a[path] == b[path])
  }

  /** A staging sync that has nothing half written. */
  predicate Ready(s: State) {
    && s.writer.Staging? && s.writer.name in s.disk.snaps && s.writer.writing == {}
    && s.writer.todo <= Entries(s.writer.manifest.files)
  }

  lemma DownloadOne(env: Env, start: State, s: State, e: FileEntry) returns (s': State)
    requires Reaches(env, start, s) && Ready(s) && s.writer.downloading
    requires e in s.writer.todo && env.clean(e.path).Some? && HasContent(env, e.sha)
    ensures Reaches(env, start, s') && Ready(s') && Advanced(env, s, s', {e})
    ensures var path := env.clean(e.path).value;
            var files := s'.disk.snaps[s.writer.name].files;
            path in files && files[path].Whole? && env.hash(files[path].value) == e.sha
  {
    hide Reaches;
    var content :| env.hash(content) == e.sha;
    ReachesThen(env, start, s, StartFile(e));
    var m := After(env, s, StartFile(e));
    ReachesThen(env, start, m, FinishDownloaded(e, content));
    s' := After(env, m, FinishDownloaded(e, content));
  }

  lemma ReuseOne(env: Env, start: State, s: State, e: FileEntry) returns (s': State)
    requires Reaches(env, start, s) && Ready(s) && !s.writer.downloading
    requires e in s.writer.todo && env.clean(e.path).Some? && Readable(s.disk)
    requires s.disk.pointer.value.value != s.writer.name
    requires var live := s.disk.snaps[s.disk.pointer.value.value];
             e in live.manifest.value.value.files && env.clean(e.path).value in live.files
    ensures Reaches(env, start, s') && Ready(s') && Advanced(env, s, s', {e})
    ensures var path := env.clean(e.path).value;
            var files := s'.disk.snaps[s.writer.name].files;
            path in files && files[path] == Whole(Bytes(s.disk.snaps[s.disk.pointer.value.value].files[path]))
  {
    hide Reaches;
    ReachesThen(env, start, s, StartFile(e));
    var m := After(env, s, StartFile(e));
    ReachesThen(env, start, m, FinishReused(e));
    s' := After(env, m, FinishReused(e));
  }

  lemma AdvancedOn(env: Env, a: State, b: State, c: State, done: set<FileEntry>, more: set<FileEntry>)
    requires Advanced(env, a, b, done) && Advanced(env, b, c, more)
    ensures Advanced(env, a, c, done + more)
  {
    assert a.writer.todo - done - more == a.writer.todo - (done + more);
  }

  lemma {:induction false} DownloadAll(env: Env, start: State, s: State, entries: set<FileEntry>) returns (s': State)
    requires Reaches(env, start, s) && Ready(s) && s.writer.downloading && entries <= s.writer.todo
    requires forall e <- entries :: env.clean(e.path).Some? && HasContent(env, e.sha)
    ensures Reaches(env, start, s') && Ready(s') && Advanced(env, s, s', entries)
    decreases entries
  {
    hide Reaches, HasContent, Advanced;
    if entries == {} {
      s' := s;
      assert Advanced(env, s, s, {}) by { NotAdvanced(env, s); }
    } else {
      var e :| e in entries;
      var m := DownloadOne(env, start, s, e);
      AdvancedTodo(env, s, m, {e});
      s' := DownloadAll(env, start, m, entries - {e});
      AdvancedOn(env, s, m, s', {e}, entries - {e});
      assert {e} + (entries - {e}) == entries;
    }
  }

  lemma NotAdvanced(env: Env, s: State)
    requires Ready(s)
    ensures Advanced(env, s, s, {})
  {
    assert s.writer.todo - {} == s.writer.todo;
  }

  lemma AdvancedTodo(env: Env, s: State, s': State, done: set<FileEntry>)
    requires Advanced(env, s, s', done)
    ensures s'.writer == s.writer.(todo := s.writer.todo - done)
    ensures s'.disk.pointer == s.disk.pointer && s'.published == s.published && s'.history == s.history
    ensures forall n <- s.disk.snaps :: n != s.writer.name ==> n in s'.disk.snaps && s'.disk.snaps[n] == s.disk.snaps[n]
  {
  }

  /** The live snapshot's content at a clean path, which every entry listed under it can reuse. */
  ghost predicate Offers(env: Env, d: Disk, entries: set<FileEntry>, path: string) {
    && Readable(d) && path in d.snaps[d.pointer.value.value].files
    && forall e <- entries ::
         env.clean(e.path) == Some(path) && e in d.snaps[d.pointer.value.value].manifest.value.value.files
  }

  lemma {:induction false} ReuseAll(env: Env, start: State, s: State, entries: set<FileEntry>, path: string)
    returns (s': State)
    requires Reaches(env, start, s) && Ready(s) && !s.writer.downloading && entries <= s.writer.todo && entries != {}
    requires Offers(env, s.disk, entries, path) && s.disk.pointer.value.value != s.writer.name
    ensures Reaches(env, start, s') && Ready(s') && Advanced(env, s, s', entries)
    ensures var files := s'.disk.snaps[s.writer.name].files;
            path in files && files[path] == Whole(Bytes(s.disk.snaps[s.disk.pointer.value.value].files[path]))
    decreases entries
  {
    hide Reaches, Advanced;
    var e :| e in entries;
    var m := ReuseOne(env, start, s, e);
    AdvancedTodo(env, s, m, {e});
    if entries == {e} {
      s' := m;
    } else {
      s' := ReuseAll(env, start, m, entries - {e}, path);
      AdvancedOn(env, s, m, s', {e}, entries - {e});
      assert {e} + (entries - {e}) == entries;
    }
  }

  /** A sync that has written every file publishes the snapshot, with the files as they are. */
  lemma Publish(env: Env, start: State, s: State) returns (s': State)
    requires Reaches(env, start, s) && Ready(s) && s.writer.todo == {}
    ensures Reaches(env, start, s') && s'.writer.Idle? && s'.published == s.published + [s.writer.manifest.files]
    ensures s'.disk.pointer == Some(Whole(s.writer.name)) && Readable(s'.disk)
    ensures var snap := s'.disk.snaps[s.writer.name];
            snap.files == s.disk.snaps[s.writer.name].files && snap.manifest.value.value == s.writer.manifest
  {
    hide Reaches;
    var name := s.writer.name;
    ReachesThen(env, start, s, StartManifest);
    s' := After(env, s, StartManifest);
    ReachesThen(env, start, s', FinishManifest);
    s' := After(env, s', FinishManifest);
    ReachesThen(env, start, s', StartPointer);
    s' := After(env, s', StartPointer);
    ReachesThen(env, start, s', FinishPointer);
    s' := After(env, s', FinishPointer);
    ReachesThen(env, start, s', SwingPointer({}));
    s' := After(env, s', SwingPointer({}));
    ReachesThen(env, start, s', EndRemoving);
    s' := After(env, s', EndRemoving);
  }

  /** A sync of files begins. */
  lemma Begin(env: Env, start: State, s: State, files: seq<FileEntry>) returns (s': State)
    requires Reaches(env, start, s) && s.writer.Idle? && files != []
    ensures Reaches(env, start, s') && Ready(s') && s'.writer.todo == Entries(files) && !s'.writer.downloading
    ensures s'.writer.manifest.files == files && s'.writer.name !in s.disk.snaps
    ensures s'.disk.pointer == s.disk.pointer && s'.published == s.published
    ensures forall n <- s.disk.snaps :: n in s'.disk.snaps && s'.disk.snaps[n] == s.disk.snaps[n]
  {
    hide Reaches;
    var name := FreshName(s.disk.snaps.Keys + s.history.Keys);
    var step := StartSync(name, Manifest("", files, 0));
    ReachesThen(env, start, s, step);
    s' := After(env, s, step);
  }

  /** What is left to write is downloaded, entry last after all the others, and published. */
  lemma DownloadAndPublish(env: Env, start: State, s: State, last: Option<FileEntry>) returns (s': State)
    requires Reaches(env, start, s) && Ready(s) && s.writer.todo <= Entries(s.writer.manifest.files)
    requires Servable(env, s.writer.manifest.files) && (last.Some? ==> last.value in s.writer.todo)
    ensures Reaches(env, start, s') && s'.writer.Idle? && s'.published == s.published + [s.writer.manifest.files]
    ensures Readable(s'.disk)
    ensures var before, after := s.disk.snaps[s.writer.name].files, s'.disk.snaps[s'.disk.pointer.value.value].files;
            && (forall path | (forall e <- s.writer.todo :: env.clean(e.path) != Some(path)) ::
                  SameFile(before, after, path))
            && (last.Some? ==>
                  && env.clean(last.value.path).Some? && env.clean(last.value.path).value in after
                  && after[env.clean(last.value.path).value].Whole?
                  && env.hash(after[env.clean(last.value.path).value].value) == last.value.sha)
  {
    hide Reaches, HasContent;
    ReachesThen(env, start, s, StartDownloads);
    var a := After(env, s, StartDownloads);
    if last.Some? {
      var b := DownloadAll(env, start, a, a.writer.todo - {last.value});
      assert b.writer.todo == {last.value};
      var c := DownloadOne(env, start, b, last.value);
      assert c.writer.todo == {};
      s' := Publish(env, start, c);
    } else {
      var b := DownloadAll(env, start, a, a.writer.todo);
      assert b.writer.todo == {};
      s' := Publish(env, start, b);
    }
  }

  /** Every list of servable listings can be published. */
  lemma {:induction false} PublishEach(env: Env, published: seq<seq<FileEntry>>) returns (s: State)
    requires AllServable(env, published)
    ensures Reaches(env, NO_CACHE, s) && s.writer.Idle? && s.published == published
    decreases |published|
  {
    hide Reaches, Servable;
    if published == [] {
      s := NO_CACHE;
      assert Reaches(env, NO_CACHE, NO_CACHE) by { Here(env); }
    } else {
      var n := |published| - 1;
      s := PublishEach(env, published[..n]);
      assert Servable(env, published[n]);
      s := PublishOne(env, s, published[n]);
      assert published[..n] + [published[n]] == published;
    }
  }

  lemma Here(env: Env)
    ensures Reaches(env, NO_CACHE, NO_CACHE)
  {
    assert Runs(env, NO_CACHE, [], NO_CACHE);
  }

  lemma PublishOne(env: Env, s: State, files: seq<FileEntry>) returns (s': State)
    requires Reaches(env, NO_CACHE, s) && s.writer.Idle? && Servable(env, files)
    ensures Reaches(env, NO_CACHE, s') && s'.writer.Idle? && s'.published == s.published + [files]
  {
    hide Reaches;
    var a := Begin(env, NO_CACHE, s, files);
    s' := DownloadAndPublish(env, NO_CACHE, a, None);
  }

  // ---------- Runs that end with the wrong content ----------

  /** The live snapshot has a file at a clean path, and not one with this hash. */
  ghost predicate WrongAt(env: Env, d: Disk, path: string, sha: string) {
    && Readable(d) && path in d.snaps[d.pointer.value.value].files
    && d.snaps[d.pointer.value.value].files[path].Whole?
    && env.hash(d.snaps[d.pointer.value.value].files[path].value) != sha
  }

  /** Two files under one clean path: the one with the other hash is written last. */
  lemma WrongLast(env: Env, s: State, files: seq<FileEntry>, other: FileEntry, path: string, sha: string)
    returns (s': State)
    requires Reaches(env, NO_CACHE, s) && s.writer.Idle? && Servable(env, files)
    requires other in files && env.clean(other.path) == Some(path) && other.sha != sha
    ensures Reaches(env, NO_CACHE, s') && s'.writer.Idle? && s'.published == s.published + [files]
    ensures WrongAt(env, s'.disk, path, sha)
  {
    hide Reaches, Servable;
    ServableListing(env, files);
    var a := Begin(env, NO_CACHE, s, files);
    s' := DownloadAndPublish(env, NO_CACHE, a, Some(other));
  }

  lemma ServableListing(env: Env, files: seq<FileEntry>)
    requires Servable(env, files)
    ensures files != []
  {
  }

  /** All that is listed under the clean path is reused, and what was wrong there stays. */
  lemma WrongAgain(env: Env, s: State, files: seq<FileEntry>, path: string, sha: string) returns (s': State)
    requires Reaches(env, NO_CACHE, s) && s.writer.Idle? && Servable(env, files) && WrongAt(env, s.disk, path, sha)
    requires s.published != [] && Under(env, files, path) <= Entries(s.published[|s.published| - 1])
    requires Under(env, files, path) != {}
    ensures Reaches(env, NO_CACHE, s') && s'.writer.Idle? && s'.published == s.published + [files]
    ensures WrongAt(env, s'.disk, path, sha)
  {
    hide Reaches, Servable, LiveInv, HistoryInv, WriterInv;
    ServableListing(env, files);
    ReachesInv(env, s);
    var under := Under(env, files, path);
    var a := Begin(env, NO_CACHE, s, files);
    var live := s.disk.pointer.value.value;
    forall e <- under
      ensures e in s.disk.snaps[live].manifest.value.value.files
    {
      assert e in Entries(s.published[|s.published| - 1]);
    }
    var b := ReuseAll(env, NO_CACHE, a, under, path);
    forall e <- b.writer.todo
      ensures env.clean(e.path) != Some(path)
    {
      assert e in Entries(files) && e !in under;
    }
    s' := DownloadAndPublish(env, NO_CACHE, b, None);
    assert SameFile(b.disk.snaps[b.writer.name].files, s'.disk.snaps[s'.disk.pointer.value.value].files, path);
  }

  /** Where the listings are not sound some run that publishes them ends with the wrong file. */
  lemma {:induction false} NotSoundGoesWrong(env: Env, published: seq<seq<FileEntry>>, path: string, sha: string)
    returns (s: State)
    requires AllServable(env, published) && !Sound(env, published, path, sha)
    requires published != [] && Under(env, published[|published| - 1], path) != {}
    ensures Reaches(env, NO_CACHE, s) && s.writer.Idle? && s.published == published
    ensures WrongAt(env, s.disk, path, sha)
    decreases |published|
  {
    hide Reaches, Servable, WrongAt;
    var n := |published| - 1;
    var files := published[n];
    var under := Under(env, files, path);
    assert published[..n] + [files] == published && Servable(env, files);
    if other :| other in under && other.sha != sha {
      s := PublishEach(env, published[..n]);
      s := WrongLast(env, s, files, other, path, sha);
    } else {
      assert OneHash(under, sha);
      assert n > 0 && under <= Entries(published[n - 1]) && !Sound(env, published[..n], path, sha);
      var e :| e in under;
      assert published[..n][n - 1] == published[n - 1] && e in Entries(published[n - 1]);
      assert e in Under(env, published[n - 1], path);
      s := NotSoundGoesWrong(env, published[..n], path, sha);
      s := WrongAgain(env, s, files, path, sha);
    }
  }

  // ---------- Exactly when ----------

  /** Every entry of the last listing is where the listings are sound. */
  ghost predicate SoundThroughout(env: Env, published: seq<seq<FileEntry>>) {
    published != [] ==>
      forall e <- published[|published| - 1] ::
        env.clean(e.path).Some? && Sound(env, published, env.clean(e.path).value, e.sha)
  }

  lemma SoundIsComplete(env: Env, s: State)
    requires Reaches(env, NO_CACHE, s) && s.published != [] && SoundThroughout(env, s.published)
    ensures LiveComplete(env, s.disk)
  {
    hide Sound, Runs;
    var steps :| Runs(env, NO_CACHE, steps, s);
    PointerIsPublished(env, steps, s);
    var snap := s.disk.snaps[s.disk.pointer.value.value];
    forall e <- snap.manifest.value.value.files
      ensures Holds(env, snap, e)
    {
      assert Arrived(env, s.published, snap, e);
    }
  }

  lemma WrongIsNotComplete(env: Env, s: State, e: FileEntry)
    requires Reaches(env, NO_CACHE, s) && s.published != [] && e in s.published[|s.published| - 1]
    requires env.clean(e.path).Some? && WrongAt(env, s.disk, env.clean(e.path).value, e.sha)
    ensures !LiveComplete(env, s.disk)
  {
    hide Sound, Runs, Reaches, LiveInv, HistoryInv, WriterInv;
    ReachesInv(env, s);
    assert !Holds(env, s.disk.snaps[s.disk.pointer.value.value], e);
  }

  /**
   For listings that can be published at all: every run that publishes them, crashes and failed syncs included, ends
   with a live snapshot that has what it lists, if and only if no entry of the last listing shares its clean path
   with another hash, in that listing or in one before it that what is listed there may be reused from.
   */
  lemma CompleteExactlyWhen(env: Env, published: seq<seq<FileEntry>>)
    requires published != [] && Publishable(env, published)
    ensures (forall s :: Reaches(env, NO_CACHE, s) && s.published == published ==> LiveComplete(env, s.disk))
            <==> SoundThroughout(env, published)
  {
    hide Sound, Reaches, LiveComplete, WrongAt;
    if SoundThroughout(env, published) {
      forall s | Reaches(env, NO_CACHE, s) && s.published == published
        ensures LiveComplete(env, s.disk)
      {
        SoundIsComplete(env, s);
      }
    } else {
      PublishableIsServable(env, published);
      var files := published[|published| - 1];
      assert Servable(env, files);
      var e :| e in files && !Sound(env, published, env.clean(e.path).value, e.sha);
      var path := env.clean(e.path).value;
      assert e in Under(env, files, path);
      var s := NotSoundGoesWrong(env, published, path, e.sha);
      WrongIsNotComplete(env, s, e);
    }
  }

  lemma PublishableIsServable(env: Env, published: seq<seq<FileEntry>>)
    requires Publishable(env, published)
    ensures AllServable(env, published)
  {
    hide Runs, Inv, Servable;
    var s :| Reaches(env, NO_CACHE, s) && s.published == published;
    var steps :| Runs(env, NO_CACHE, steps, s);
    assert Inv(env, NO_CACHE) by { ReachesHere(env); }
    RunKeepsServable(env, NO_CACHE, steps, s);
  }

  lemma ReachesHere(env: Env)
    ensures Inv(env, NO_CACHE)
  {
    Here(env);
    ReachesInv(env, NO_CACHE);
  }

  /**
   The failing input: a tree with the files "a.md" and " a.md" that differ. A run publishes it with the wrong "a.md",
   and a sync of a later tree that has "a.md" alone, unchanged, reuses the wrong one.
   */
  lemma TwoFilesOneCleanPath(env: Env, content: string, other: string)
    requires env.clean("a.md") == env.clean(" a.md") == Some("a.md") && env.hash(content) != env.hash(other)
    ensures var a, b := FileEntry("a.md", env.hash(content)), FileEntry(" a.md", env.hash(other));
            && (exists s :: Reaches(env, NO_CACHE, s) && s.published == [[a, b]] && !LiveComplete(env, s.disk))
            && exists s :: Reaches(env, NO_CACHE, s) && s.published == [[a, b], [a]] && !LiveComplete(env, s.disk)
  {
    hide Reaches, LiveComplete, WrongAt;
    var a, b := FileEntry("a.md", env.hash(content)), FileEntry(" a.md", env.hash(other));
    assert HasContent(env, a.sha) && HasContent(env, b.sha);
    assert Servable(env, [a, b]) && Servable(env, [a]);
    var s := PublishEach(env, []);
    var s1 := WrongLast(env, s, [a, b], b, "a.md", a.sha);
    assert s1.published == [[a, b]];
    WrongIsNotComplete(env, s1, a);
    assert a in Under(env, [a], "a.md");
    assert Under(env, [a], "a.md") <= Entries([a, b]);
    var s2 := WrongAgain(env, s1, [a], "a.md", a.sha);
    assert s2.published == [[a, b], [a]];
    WrongIsNotComplete(env, s2, a);
  }

  /** Listings that each have one hash for a clean path are sound throughout. */
  lemma OneHashEachIsSound(env: Env, published: seq<seq<FileEntry>>)
    requires AllServable(env, published)
    requires forall files <- published, e <- files, f <- files ::
               env.clean(e.path) == env.clean(f.path) ==> e.sha == f.sha
    ensures SoundThroughout(env, published)
  {
    hide Sound;
    if published != [] {
      forall e <- published[|published| - 1]
        ensures env.clean(e.path).Some? && Sound(env, published, env.clean(e.path).value, e.sha)
      {
        assert Servable(env, published[|published| - 1]);
        OneHashEachIsSoundAt(env, published, e);
      }
    }
  }

  lemma {:induction false} OneHashEachIsSoundAt(env: Env, published: seq<seq<FileEntry>>, e: FileEntry)
    requires forall files <- published, e <- files, f <- files ::
               env.clean(e.path) == env.clean(f.path) ==> e.sha == f.sha
    requires env.clean(e.path).Some? && (published != [] ==> e in published[|published| - 1])
    ensures Sound(env, published, env.clean(e.path).value, e.sha)
    decreases |published|
  {
    if published != [] {
      var n, path := |published| - 1, env.clean(e.path).value;
      assert published[n] in published;
      assert OneHash(Under(env, published[n], path), e.sha);
      if n > 0 && Under(env, published[n], path) <= Entries(published[n - 1]) {
        assert e in Under(env, published[n], path);
        assert e in Entries(published[n - 1]);
        OneHashEachIsSoundAt(env, published[..n], e);
      }
    }
  }
}
