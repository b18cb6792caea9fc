/**
 One sync of the docs cache (Sync and download in internal/docs/sync.go): every disk state it passes through is
 one the protocol of DocsCache allows, and it ends with the new snapshot published or the old one as it was.
 */
module DocsSync {
  import opened Wrappers
  import opened DocsCache

  datatype SyncResult = SyncResult(commit: string, added: nat, updated: nat, removed: nat, reused: nat, changed: bool)

  /** What fetchRaw gets for an entry: nothing, or what the server holds, which has the entry's hash. */
  type Fetch = FileEntry -> Option<string>

  ghost predicate Faithful(env: Env, fetch: Fetch, blobs: seq<FileEntry>) {
    forall e | e in blobs && fetch(e).Some? :: env.hash(fetch(e).value) == e.sha
  }

  /** Which steps of the disk fail. */
  type Faults = Step -> bool

  ghost predicate Works(fails: Faults) {
    forall step :: !fails(step)
  }

  /** Some steps lead from s to s', and none of them swings the pointer. */
  ghost predicate Quietly(env: Env, s: State, s': State) {
    exists steps: seq<Step> :: Runs(env, s, steps, s') && NoSwing(steps)
  }

  predicate NoSwing(steps: seq<Step>) {
    forall step <- steps :: !step.SwingPointer?
  }

  lemma Stays(env: Env, s: State)
    ensures Quietly(env, s, s)
  {
    assert Runs(env, s, [], s) && NoSwing([]);
  }

  lemma QuietlyThen(env: Env, s: State, m: State, step: Step)
    requires Quietly(env, s, m) && Enabled(env, m, step) && !step.SwingPointer?
    ensures Quietly(env, s, After(env, m, step))
  {
    hide Enabled, After, Runs;
    var steps :| Runs(env, s, steps, m) && NoSwing(steps);
    RunsThen(env, s, steps, m, step);
    assert NoSwing(steps + [step]);
  }

  /** Readers see the same snapshot all along. */
  lemma QuietlySame(env: Env, s: State, s': State)
    requires Inv(env, s) && Quietly(env, s, s')
    ensures Inv(env, s') && Live(s'.disk) == Live(s.disk) && s'.history == s.history
    ensures s'.disk.pointer == s.disk.pointer
    ensures s'.published == s.published
  {
    hide Inv, Runs, Live;
    var steps :| Runs(env, s, steps, s') && NoSwing(steps);
    RunKeepsInv(env, s, steps, s');
    UnpublishedSyncChangesNothing(env, s, steps, s');
  }

  /** A step of the sync. */
  method Do(env: Env, s: State, step: Step, ghost start: State) returns (s': State)
    requires Inv(env, start) && Quietly(env, start, s) && Enabled(env, s, step) && !step.SwingPointer?
    ensures s' == After(env, s, step) && Quietly(env, start, s') && Inv(env, s')
  {
    hide Inv, Quietly;
    QuietlyThen(env, start, s, step);
    s' := After(env, s, step);
    QuietlySame(env, start, s');
  }

  // ---------- Refreshing checked_at ----------

  /** The manifest of the live snapshot. */
  function LiveManifest(d: Disk): Manifest
    requires Readable(d)
  {
    d.snaps[d.pointer.value.value].manifest.value.value
  }

  /** touch: a new manifest beside the live one, and a rename. */
  method Touch(env: Env, start: State, now: int, fails: Faults) returns (ok: bool, s: State)
    requires Inv(env, start) && start.writer.Idle? && Readable(start.disk)
    ensures Quietly(env, start, s) && s.writer.Idle? && Readable(s.disk)
    ensures LiveManifest(s.disk)
            == LiveManifest(start.disk).(checkedAt := if ok then now else LiveManifest(start.disk).checkedAt)
    ensures Works(fails) ==> ok
  {
    hide Inv, Quietly;
    Stays(env, start);
    s := Do(env, start, StartTouch(now), start);
    if fails(FinishTouchTmp) {
      s := Do(env, s, Fail, start);
      return false, s;
    }
    s := Do(env, s, FinishTouchTmp, start);
    if fails(RenameTouch) {
      s := Do(env, s, Fail, start);
      return false, s;
    }
    s := Do(env, s, RenameTouch, start);
    ok := true;
  }

  // ---------- Staging ----------

  /** A sync under way that has finished every blob but some of those in left, all of them listed. */
  ghost predicate StagingFor(s: State, name: Name, m: Manifest, left: set<FileEntry>, downloading: bool) {
    && s.writer.Staging? && s.writer.name == name && s.writer.manifest == m && name in s.disk.snaps
    && s.writer.todo + s.writer.writing <= left <= Entries(m.files) && s.writer.downloading == downloading
  }

  /** writeFile, for content that is right: either the file is whole, or writing it failed. */
  method WriteFile(env: Env, s: State, e: FileEntry, content: string, fails: Faults, ghost start: State,
                   ghost left: set<FileEntry>)
    returns (ok: bool, s': State)
    requires Inv(env, start) && Quietly(env, start, s) && s.writer.Staging? && e in left
    requires StagingFor(s, s.writer.name, s.writer.manifest, left, true) && env.hash(content) == e.sha
    ensures Quietly(env, start, s')
    ensures StagingFor(s', s.writer.name, s.writer.manifest, if ok then left - {e} else left, true)
    ensures Works(fails) ==> (ok <==> env.clean(e.path).Some?)
  {
    hide Inv, Quietly;
    if env.clean(e.path).None? {
      return false, s;
    }
    s' := Do(env, s, StartFile(e), start);
    if fails(FinishDownloaded(e, content)) {
      return false, s';
    }
    s' := Do(env, s', FinishDownloaded(e, content), start);
    ok := true;
  }

  /** Each path and hash of prev is listed by the live snapshot. */
  ghost predicate FromLive(d: Disk, prev: map<string, string>) {
    forall p <- prev :: Readable(d) && FileEntry(p, prev[p]) in LiveManifest(d).files
  }

  lemma SameFromLive(env: Env, s: State, s': State, prev: map<string, string>)
    requires Inv(env, s) && Quietly(env, s, s') && FromLive(s.disk, prev)
    ensures FromLive(s'.disk, prev)
  {
    hide Inv, Quietly;
    QuietlySame(env, s, s');
  }

  /** The live snapshot has what it lists. */
  lemma LiveHas(env: Env, s: State, e: FileEntry)
    requires Inv(env, s) && Readable(s.disk) && e in LiveManifest(s.disk).files
    ensures env.clean(e.path).Some? && env.clean(e.path).value in s.disk.snaps[s.disk.pointer.value.value].files
  {
    hide LiveInv, WriterInv;
  }

  /** copyFrom: writes e again from the live snapshot, which lists it with the same hash. */
  method CopyFrom(env: Env, s: State, e: FileEntry, prev: map<string, string>, fails: Faults,
                  ghost start: State, ghost left: set<FileEntry>)
    returns (ok: bool, s': State)
    requires Inv(env, start) && Quietly(env, start, s) && s.writer.Staging? && e in left
    requires StagingFor(s, s.writer.name, s.writer.manifest, left, false)
    requires FromLive(start.disk, prev) && e.path in prev && prev[e.path] == e.sha
    ensures Quietly(env, start, s')
    ensures StagingFor(s', s.writer.name, s.writer.manifest, if ok then left - {e} else left, false)
    ensures Works(fails) ==> ok
  {
    hide Inv, Quietly;
    SameFromLive(env, start, s, prev);
    QuietlySame(env, start, s);
    assert e == FileEntry(e.path, prev[e.path]);
    LiveHas(env, s, e);
    var live := s.disk.snaps[s.disk.pointer.value.value];
    if env.clean(e.path).None? || env.clean(e.path).value !in live.files {
      return false, s;
    }
    s' := Do(env, s, StartFile(e), start);
    if fails(FinishReused(e)) {
      return false, s';
    }
    SameFromLive(env, start, s', prev);
    s' := Do(env, s', FinishReused(e), start);
    ok := true;
  }

  /** How many of files are under paths prev has not. */
  function NewPaths(files: seq<FileEntry>, prev: map<string, string>): nat {
    if files == [] then 0
    else NewPaths(files[..|files| - 1], prev) + if files[|files| - 1].path in prev then 0 else 1
  }

  /** The files that are not as prev has them, or all. */
  function Changed(files: seq<FileEntry>, prev: map<string, string>, force: bool): seq<FileEntry> {
    if files == [] then []
    else
      var e := files[|files| - 1];
      Changed(files[..|files| - 1], prev, force) + if !force && e.path in prev && prev[e.path] == e.sha then [] else [e]
  }

  /** The files reused from the live snapshot, unless forced, and those left to download. */
  method Partition(env: Env, s: State, blobs: seq<FileEntry>, prev: map<string, string>, force: bool, fails: Faults,
                   ghost start: State)
    returns (toDownload: seq<FileEntry>, reused: nat, s': State)
    requires Inv(env, start) && Quietly(env, start, s) && FromLive(start.disk, prev)
    requires s.writer.Staging? && StagingFor(s, s.writer.name, s.writer.manifest, Entries(blobs), false)
    ensures Quietly(env, start, s') && StagingFor(s', s.writer.name, s.writer.manifest, Entries(toDownload), false)
    ensures reused + |toDownload| == |blobs| && NewPaths(toDownload, prev) == NewPaths(blobs, prev)
    ensures Entries(toDownload) <= Entries(blobs) && (force ==> toDownload == blobs)
    ensures Works(fails) ==> toDownload == Changed(blobs, prev, force)
  {
    hide Inv, Quietly, FromLive, NewPaths, Changed, Works, Entries;
    toDownload, reused, s' := [], 0, s;
    NothingNew(prev, force);
    assert blobs[..0] == [] && blobs[0..] == blobs;
    for i := 0 to |blobs|
      invariant Quietly(env, start, s') && reused + |toDownload| == i
      invariant StagingFor(s', s.writer.name, s.writer.manifest, Entries(toDownload) + Entries(blobs[i..]), false)
      invariant Works(fails) ==> toDownload == Changed(blobs[..i], prev, force)
      invariant NewPaths(toDownload, prev) == NewPaths(blobs[..i], prev)
      invariant Entries(toDownload) <= Entries(blobs[..i]) && (force ==> toDownload == blobs[..i])
    {
      var e := blobs[i];
      ghost var left := Entries(toDownload) + Entries(blobs[i..]);
      OneFewer(blobs, i, toDownload);
      OneMorePath(blobs, i, toDownload, prev);
      OneMoreChanged(blobs, i, prev, force);
      if !force && e.path in prev && prev[e.path] == e.sha {
        var ok;
        ok, s' := CopyFrom(env, s', e, prev, fails, start, left);
        if ok {
          reused := reused + 1;
          continue;
        }
      }
      toDownload := toDownload + [e];
    }
    assert blobs[..|blobs|] == blobs && blobs[|blobs|..] == [];
    assert Entries(toDownload) + {} == Entries(toDownload);
  }

  lemma OneFewer(blobs: seq<FileEntry>, i: nat, kept: seq<FileEntry>)
    requires i < |blobs| && Entries(kept) <= Entries(blobs[..i])
    ensures var left := Entries(kept) + Entries(blobs[i..]);
            && blobs[i] in left && left - {blobs[i]} <= Entries(kept) + Entries(blobs[i + 1..]) <= left
            && Entries(kept + [blobs[i]]) + Entries(blobs[i + 1..]) == left
    ensures blobs[..i + 1] == blobs[..i] + [blobs[i]] && (kept + [blobs[i]])[..|kept|] == kept
    ensures Entries(blobs[..i + 1]) == Entries(blobs[..i]) + {blobs[i]}
    ensures Entries(kept + [blobs[i]]) == Entries(kept) + {blobs[i]}
  {
  }

  lemma OneMoreChanged(blobs: seq<FileEntry>, i: nat, prev: map<string, string>, force: bool)
    requires i < |blobs|
    ensures var e := blobs[i];
            Changed(blobs[..i + 1], prev, force)
            == Changed(blobs[..i], prev, force) + if !force && e.path in prev && prev[e.path] == e.sha then [] else [e]
  {
    assert blobs[..i + 1][..i] == blobs[..i];
  }

  lemma OneMorePath(blobs: seq<FileEntry>, i: nat, kept: seq<FileEntry>, prev: map<string, string>)
    requires i < |blobs|
    ensures var e := blobs[i]; var more := if e.path in prev then 0 else 1;
            && NewPaths(blobs[..i + 1], prev) == NewPaths(blobs[..i], prev) + more
            && NewPaths(kept + [e], prev) == NewPaths(kept, prev) + more
  {
    assert blobs[..i + 1][..i] == blobs[..i] && (kept + [blobs[i]])[..|kept|] == kept;
  }

  lemma NothingNew(prev: map<string, string>, force: bool)
    ensures NewPaths([], prev) == 0 && Changed([], prev, force) == [] && Entries([]) == {}
  {
  }

  /** Every file can be fetched, and has a path that can be written. */
  ghost predicate CanFetch(env: Env, fetch: Fetch, blobs: seq<FileEntry>) {
    forall e | e in blobs :: fetch(e).Some? && env.clean(e.path).Some?
  }

  const SYNC_WORKERS := 8

  /** The workers that wait to start, those that fetch their file, and those that write it. */
  datatype Workers = Workers(waiting: set<FileEntry>, fetching: set<FileEntry>, writing: set<FileEntry>) {
    function All(): set<FileEntry> {
      waiting + fetching + writing
    }

    /** Any that can be the next to go on: at most eight are past their start. */
    predicate CanGoOn(e: FileEntry) {
      e in fetching || e in writing || (e in waiting && |fetching| + |writing| < SYNC_WORKERS)
    }

    ghost predicate Valid() {
      waiting !! fetching && waiting !! writing && fetching !! writing && |fetching| + |writing| <= SYNC_WORKERS
    }

    function Work(): nat {
      3 * |waiting| + 2 * |fetching| + |writing|
    }

    function Start(e: FileEntry): Workers {
      Workers(waiting - {e}, fetching + {e}, writing)
    }

    function Write(e: FileEntry): Workers {
      Workers(waiting, fetching - {e}, writing + {e})
    }

    function End(e: FileEntry): Workers {
      Workers(waiting - {e}, fetching - {e}, writing - {e})
    }
  }

  lemma SomeCanGoOn(w: Workers)
    requires w.All() != {}
    ensures exists e :: e in w.All() && w.CanGoOn(e)
  {
    if w.fetching != {} {
      var e :| e in w.fetching;
      assert w.CanGoOn(e);
    } else if w.writing != {} {
      var e :| e in w.writing;
      assert w.CanGoOn(e);
    } else {
      var e :| e in w.waiting;
      assert w.CanGoOn(e);
    }
  }

  lemma Starts(w: Workers, e: FileEntry)
    requires w.Valid() && w.CanGoOn(e) && e in w.waiting
    ensures w.Start(e).Valid() && w.Start(e).All() == w.All() && w.Start(e).Work() < w.Work()
  {
    hide Workers.All, Workers.CanGoOn;
    StartsAll(w, e);
    FewerBy(w.waiting, e);
    OneMore(w.fetching, e);
  }

  lemma StartsAll(w: Workers, e: FileEntry)
    requires w.Valid() && w.CanGoOn(e) && e in w.waiting
    ensures w.Start(e).All() == w.All() && e !in w.fetching && |w.fetching| + |w.writing| < SYNC_WORKERS
  {
  }

  lemma OneMore(files: set<FileEntry>, e: FileEntry)
    requires e !in files
    ensures |files + {e}| == |files| + 1
  {
  }

  lemma Writes(w: Workers, e: FileEntry)
    requires w.Valid() && e in w.fetching
    ensures w.Write(e).Valid() && w.Write(e).All() == w.All() && w.Write(e).Work() < w.Work()
  {
    hide Workers.All;
    WritesAll(w, e);
    FewerBy(w.fetching, e);
    OneMore(w.writing, e);
  }

  lemma WritesAll(w: Workers, e: FileEntry)
    requires w.Valid() && e in w.fetching
    ensures w.Write(e).All() == w.All() && e !in w.writing
  {
  }

  lemma Ends(w: Workers, e: FileEntry)
    requires w.Valid() && e in w.All()
    ensures w.End(e).Valid() && w.End(e).All() == w.All() - {e} && w.End(e).Work() < w.Work()
  {
    hide Workers.All;
    EndsAll(w, e);
    FewerBy(w.waiting, e);
    FewerBy(w.fetching, e);
    FewerBy(w.writing, e);
  }

  lemma EndsAll(w: Workers, e: FileEntry)
    ensures w.End(e).All() == w.All() - {e}
    ensures e in w.All() ==> e in w.waiting || e in w.fetching || e in w.writing
  {
  }

  lemma FewerBy(files: set<FileEntry>, e: FileEntry)
    ensures |files - {e}| == if e in files then |files| - 1 else |files|
  {
    if e !in files {
      assert files - {e} == files;
    }
  }

  /** Files under way: what the workers write is begun, and unless one failed they have all that is left. */
  ghost predicate UnderWay(env: Env, fetch: Fetch, s: State, w: Workers, ok: bool, left: set<FileEntry>) {
    && w.Valid() && w.All() <= left && (ok ==> left == w.All())
    && s.writer.Staging? && w.writing <= s.writer.writing && w.writing !! s.writer.todo
    && forall e <- w.writing :: fetch(e).Some? && env.clean(e.path).Some?
  }

  /** What starting to write a file comes to, and finishing. */
  lemma StartStages(env: Env, s: State, e: FileEntry, left: set<FileEntry>)
    requires s.writer.Staging? && StagingFor(s, s.writer.name, s.writer.manifest, left, true)
    requires e in left && env.clean(e.path).Some?
    ensures Enabled(env, s, StartFile(e))
    ensures var s' := After(env, s, StartFile(e));
            && StagingFor(s', s.writer.name, s.writer.manifest, left, true)
            && s'.writer.writing == s.writer.writing + {e} && s'.writer.todo == s.writer.todo - {e}
  {
  }

  lemma FinishStages(env: Env, s: State, e: FileEntry, content: string, left: set<FileEntry>)
    requires s.writer.Staging? && StagingFor(s, s.writer.name, s.writer.manifest, left, true)
    requires e in s.writer.writing && e !in s.writer.todo && env.clean(e.path).Some? && env.hash(content) == e.sha
    ensures Enabled(env, s, FinishDownloaded(e, content))
    ensures var s' := After(env, s, FinishDownloaded(e, content));
            && StagingFor(s', s.writer.name, s.writer.manifest, left - {e}, true)
            && s'.writer.writing == s.writer.writing - {e} && s'.writer.todo == s.writer.todo
  {
  }

  /** A worker fetches its file, and begins to write it. */
  method FetchOne(env: Env, s: State, w: Workers, ok: bool, e: FileEntry, fetch: Fetch, ghost start: State,
                  ghost left: set<FileEntry>, ghost blobs: seq<FileEntry>)
    returns (ok': bool, s': State, w': Workers)
    requires Inv(env, start) && Quietly(env, start, s) && Faithful(env, fetch, blobs) && left <= Entries(blobs)
    requires s.writer.Staging? && StagingFor(s, s.writer.name, s.writer.manifest, left, true)
    requires UnderWay(env, fetch, s, w, ok, left) && e in w.fetching
    ensures Quietly(env, start, s') && StagingFor(s', s.writer.name, s.writer.manifest, left, true)
    ensures UnderWay(env, fetch, s', w', ok', left) && w'.Work() < w.Work()
    ensures ok && CanFetch(env, fetch, blobs) ==> ok'
    ensures w'.fetching == w.fetching - {e}
  {
    hide Inv, Quietly, Faithful, CanFetch, StagingFor, Workers.Work, Workers.Valid, After, Enabled;
    FetchedIs(env, fetch, blobs, e);
    if fetch(e).None? || env.clean(e.path).None? {
      Ends(w, e);
      return false, s, w.End(e);
    }
    Writes(w, e);
    StartStages(env, s, e, left);
    s' := Do(env, s, StartFile(e), start);
    ok', w' := ok, w.Write(e);
  }

  /** A worker ends, its file written or not. */
  method WriteOne(env: Env, s: State, w: Workers, ok: bool, e: FileEntry, fetch: Fetch, fails: Faults,
                  ghost start: State, ghost left: set<FileEntry>, ghost blobs: seq<FileEntry>)
    returns (ok': bool, s': State, w': Workers, ghost left': set<FileEntry>)
    requires Inv(env, start) && Quietly(env, start, s) && Faithful(env, fetch, blobs) && left <= Entries(blobs)
    requires s.writer.Staging? && StagingFor(s, s.writer.name, s.writer.manifest, left, true)
    requires UnderWay(env, fetch, s, w, ok, left) && e in w.writing
    ensures Quietly(env, start, s') && StagingFor(s', s.writer.name, s.writer.manifest, left', true)
    ensures UnderWay(env, fetch, s', w', ok', left') && left' <= left && w'.Work() < w.Work()
    ensures ok && Works(fails) ==> ok'
    ensures w'.fetching == w.fetching - {e}
  {
    hide Inv, Quietly, Faithful, Works, Workers.Work, Workers.Valid, After, Enabled;
    Ends(w, e);
    FetchedIs(env, fetch, blobs, e);
    var finish := FinishDownloaded(e, fetch(e).value);
    if fails(finish) {
      Failed(fails, finish);
      return false, s, w.End(e), left;
    }
    FinishStages(env, s, e, fetch(e).value, left);
    s' := Do(env, s, finish, start);
    ok', w', left' := ok, w.End(e), left - {e};
  }

  /** A worker goes on: it starts unless one failed, then fetches its file, and then writes it. */
  method GoOn(env: Env, s: State, w: Workers, ok: bool, e: FileEntry, fetch: Fetch, fails: Faults, ghost start: State,
              ghost left: set<FileEntry>, ghost blobs: seq<FileEntry>)
    returns (ok': bool, s': State, w': Workers, ghost left': set<FileEntry>)
    requires Inv(env, start) && Quietly(env, start, s) && Faithful(env, fetch, blobs) && left <= Entries(blobs)
    requires s.writer.Staging? && StagingFor(s, s.writer.name, s.writer.manifest, left, true)
    requires UnderWay(env, fetch, s, w, ok, left) && w.CanGoOn(e)
    ensures Quietly(env, start, s') && StagingFor(s', s.writer.name, s.writer.manifest, left', true)
    ensures UnderWay(env, fetch, s', w', ok', left') && left' <= left && w'.Work() < w.Work()
    ensures ok && Works(fails) && CanFetch(env, fetch, blobs) ==> ok'
    // None starts once another failed, and no more than eight are past their start.
    ensures !ok ==> w'.fetching <= w.fetching
    ensures |w'.fetching| + |w'.writing| <= 8
  {
    hide Inv, Quietly, Faithful, CanFetch, Works, StagingFor, Workers.Work, Workers.Valid;
    ok', s', w', left' := ok, s, w, left;
    if e in w.fetching {
      ok', s', w' := FetchOne(env, s, w, ok, e, fetch, start, left, blobs);
    } else if e in w.writing {
      ok', s', w', left' := WriteOne(env, s, w, ok, e, fetch, fails, start, left, blobs);
    } else if ok {
      Starts(w, e);
      w' := w.Start(e);
    } else {
      Ends(w, e);
      w' := w.End(e);
    }
    EightAtMost(w');
  }

  lemma EightAtMost(w: Workers)
    requires w.Valid()
    ensures |w.fetching| + |w.writing| <= 8
  {
  }

  /**
   download: a worker for each file, of which at most eight are past their start at a time and any may be the next to go
   on. One that starts after another failed does nothing; the others still finish.
   */
  method Download(env: Env, s: State, blobs: seq<FileEntry>, fetch: Fetch, fails: Faults, ghost start: State)
    returns (ok: bool, s': State)
    requires Inv(env, start) && Quietly(env, start, s) && Faithful(env, fetch, blobs)
    requires s.writer.Staging? && StagingFor(s, s.writer.name, s.writer.manifest, Entries(blobs), false)
    ensures Quietly(env, start, s') && s'.writer.Staging? && s'.writer.name == s.writer.name
    ensures ok ==> StagingFor(s', s.writer.name, s.writer.manifest, {}, true)
    ensures Works(fails) && CanFetch(env, fetch, blobs) ==> ok
  {
    hide Inv, Quietly, Faithful, CanFetch, Works, Workers.Work, Workers.Valid, Workers.CanGoOn;
    s' := Do(env, s, StartDownloads, start);
    var w := Workers(Entries(blobs), {}, {});
    ghost var left := Entries(blobs);
    ok := true;
    NoneStarted(w);
    while w.All() != {}
      invariant Quietly(env, start, s') && StagingFor(s', s.writer.name, s.writer.manifest, left, true)
      invariant UnderWay(env, fetch, s', w, ok, left) && left <= Entries(blobs)
      invariant Works(fails) && CanFetch(env, fetch, blobs) ==> ok
      decreases w.Work()
    {
      SomeCanGoOn(w);
      var e :| e in w.All() && w.CanGoOn(e);
      ok, s', w, left := GoOn(env, s', w, ok, e, fetch, fails, start, left, blobs);
    }
  }

  lemma NoneStarted(w: Workers)
    requires w.fetching == w.writing == {}
    ensures w.Valid()
  {
  }

  /** A file is fetched with the content its hash says, and can be where all can. */
  lemma FetchedIs(env: Env, fetch: Fetch, blobs: seq<FileEntry>, e: FileEntry)
    requires Faithful(env, fetch, blobs) && e in Entries(blobs)
    ensures fetch(e).Some? ==> env.hash(fetch(e).value) == e.sha
    ensures CanFetch(env, fetch, blobs) ==> fetch(e).Some? && env.clean(e.path).Some?
  {
  }

  lemma Failed(fails: Faults, step: Step)
    requires fails(step)
    ensures !Works(fails)
  {
  }

  // ---------- Publishing, or discarding ----------

  /** What a failed sync leaves of its staging directory is removed, as far as that works. */
  method Discard(env: Env, s: State, fails: Faults, ghost start: State) returns (s': State)
    requires Inv(env, start) && Quietly(env, start, s)
    requires !s.writer.Idle? && !s.writer.Pruning? && !s.writer.Discarding?
    requires !s.writer.Touching? && !s.writer.TouchReady?
    ensures Quietly(env, start, s') && s'.writer.Idle?
    ensures Works(fails) ==> s.writer.name !in s'.disk.snaps
  {
    hide Inv, Quietly;
    var name := s.writer.name;
    s' := Do(env, s, Fail, start);
    if name in s'.disk.snaps {
      if !fails(Remove(name, Directory)) {
        s' := Do(env, s', Remove(name, Directory), start);
      }
    }
    s' := Do(env, s', EndRemoving, start);
  }

  /** publish, up to the rename of the pointer: the manifest, then the pointer's temporary copy. */
  method Prepare(env: Env, s: State, fails: Faults, ghost start: State) returns (ok: bool, s': State)
    requires Inv(env, start) && Quietly(env, start, s) && s.writer.Staging?
    requires StagingFor(s, s.writer.name, s.writer.manifest, {}, true)
    ensures Quietly(env, start, s')
    ensures ok ==> s'.writer == PointerReady(s.writer.name, s.writer.manifest) && s.writer.name in s'.disk.snaps
    ensures Works(fails) ==> ok
    ensures !ok ==> s'.writer.WritingManifest? || s'.writer.WritingPointer? || s'.writer.PointerReady?
    ensures !ok ==> s'.writer.name == s.writer.name
  {
    hide Inv, Quietly;
    s' := Do(env, s, StartManifest, start);
    if fails(FinishManifest) {
      return false, s';
    }
    s' := Do(env, s', FinishManifest, start);
    s' := Do(env, s', StartPointer, start);
    if fails(FinishPointer) {
      return false, s';
    }
    s' := Do(env, s', FinishPointer, start);
    if fails(SwingPointer({})) {
      return false, s';
    }
    ok := true;
  }

  /** prune: removes each of the doomed snapshots, as far as that works. */
  method Prune(env: Env, s: State, fails: Faults, ghost start: State) returns (s': State)
    requires Inv(env, start) && Quietly(env, start, s) && s.writer.Pruning?
    ensures Quietly(env, start, s') && s'.writer.Idle?
    ensures Works(fails) ==> s'.disk.snaps == s.disk.snaps - s.writer.doomed
  {
    hide Inv, Quietly;
    s' := s;
    var rest := s.writer.doomed;
    while rest != {}
      invariant Quietly(env, start, s') && s'.writer == s.writer && rest <= s.writer.doomed
      invariant Works(fails) ==> s'.disk.snaps == s.disk.snaps - (s.writer.doomed - rest)
      decreases rest
    {
      var name :| name in rest;
      rest := rest - {name};
      if name in s'.disk.snaps {
        if !fails(Remove(name, Directory)) {
          s' := Do(env, s', Remove(name, Directory), start);
        }
      }
    }
    s' := Do(env, s', EndRemoving, start);
  }

  lemma {:induction false} RunsOn(env: Env, s: State, a: seq<Step>, m: State, b: seq<Step>, s': State)
    requires Runs(env, s, a, m) && Runs(env, m, b, s')
    ensures Runs(env, s, a + b, s')
    decreases |a|
  {
    hide Enabled, After;
    if a == [] {
      assert a + b == b;
    } else {
      assert (a + b)[1..] == a[1..] + b;
      RunsOn(env, After(env, s, a[0]), a[1..], m, b, s');
    }
  }

  lemma ReachesThrough(env: Env, s: State, ready: State, swing: Step, s': State)
    requires Quietly(env, s, ready) && Enabled(env, ready, swing) && Quietly(env, After(env, ready, swing), s')
    ensures Reaches(env, s, s')
  {
    hide Enabled, After, Runs;
    var a :| Runs(env, s, a, ready) && NoSwing(a);
    RunsThen(env, s, a, ready, swing);
    var b :| Runs(env, After(env, ready, swing), b, s') && NoSwing(b);
    RunsOn(env, s, a + [swing], After(env, ready, swing), b, s');
  }

  lemma QuietlyReaches(env: Env, s: State, s': State)
    requires Quietly(env, s, s')
    ensures Reaches(env, s, s')
  {
    hide Runs;
    var steps :| Runs(env, s, steps, s') && NoSwing(steps);
  }

  /** Swinging the pointer to the staged snapshot, and pruning. */
  method SwingAndPrune(env: Env, s: State, doomed: set<Name>, fails: Faults, ghost start: State) returns (s': State)
    requires Inv(env, start) && Quietly(env, start, s) && s.writer.PointerReady? && s.writer.name in s.disk.snaps
    requires s.writer.name !in doomed
    ensures Reaches(env, start, s') && s'.writer.Idle?
    ensures var live := Live(s'.disk);
            && live.Some? && live.value.commit == s.writer.manifest.commit
            && live.value.files == s.writer.manifest.files && Present(env, live.value)
            && Right(env, s'.published, live.value.files, live.value.content)
    ensures s'.published == s.published + [s.writer.manifest.files]
    ensures Works(fails) ==> s'.disk.snaps == s.disk.snaps - doomed
  {
    hide Inv, Quietly, Live, Reaches;
    QuietlySame(env, start, s);
    SwingPublishes(env, s, SwingPointer(doomed));
    StepKeepsInv(env, s, SwingPointer(doomed));
    var swung := After(env, s, SwingPointer(doomed));
    Stays(env, swung);
    s' := Prune(env, swung, fails, swung);
    QuietlySame(env, swung, s');
    ReachesThrough(env, start, s, SwingPointer(doomed), s');
  }

  // ---------- Counting ----------

  /** prevSHA: the hash each path of the previous snapshot has. */
  method PrevShas(files: seq<FileEntry>) returns (prev: map<string, string>)
    ensures forall p <- prev :: FileEntry(p, prev[p]) in files
    ensures forall e <- files :: e.path in prev
  {
    prev := map[];
    for i := 0 to |files|
      invariant forall p <- prev :: FileEntry(p, prev[p]) in files
      invariant forall j | 0 <= j < i :: files[j].path in prev
    {
      prev := prev[files[i].path := files[i].sha];
    }
  }

  method CountAdded(files: seq<FileEntry>, prev: map<string, string>) returns (added: nat, updated: nat)
    ensures added == NewPaths(files, prev) && added + updated == |files|
  {
    added, updated := 0, 0;
    for i := 0 to |files|
      invariant added == NewPaths(files[..i], prev) && added + updated == i
    {
      assert files[..i + 1][..i] == files[..i];
      if files[i].path in prev {
        updated := updated + 1;
      } else {
        added := added + 1;
      }
    }
    assert files[..|files|] == files;
  }

  function Paths(files: seq<FileEntry>): set<string> {
    set e | e in files :: e.path
  }

  method CountRemoved(blobs: seq<FileEntry>, prev: map<string, string>) returns (removed: nat)
    ensures removed == |prev.Keys - Paths(blobs)|
  {
    removed := CountOutside(prev.Keys, Paths(blobs));
  }

  method CountOutside(all: set<string>, kept: set<string>) returns (n: nat)
    ensures n == |all - kept|
  {
    n := 0;
    var rest := all;
    while rest != {}
      invariant rest <= all && |all - kept| == n + |rest - kept|
      decreases rest
    {
      var path :| path in rest;
      if path !in kept {
        assert rest - kept == (rest - {path} - kept) + {path};
        n := n + 1;
      } else {
        assert rest - kept == rest - {path} - kept;
      }
      rest := rest - {path};
    }
  }

  // ---------- The whole sync ----------

  /** What a sync that succeeds reports, when it found blobs at commit and the live snapshot had prev. */
  ghost predicate Reported(r: SyncResult, commit: string, force: bool, blobs: seq<FileEntry>, prev: map<string, string>,
                           fails: Faults)
  {
    && r.commit == commit && r.changed
    && r.added + r.updated + r.reused == |blobs| && r.added == NewPaths(blobs, prev)
    && r.removed == |prev.Keys - Paths(blobs)| && (force ==> r.reused == 0)
    && (Works(fails) ==> r.added + r.updated == |Changed(blobs, prev, force)|)
  }

  /** Which of the first n blobs are under a path the previous snapshot had not, and which it had as they are. */
  function NewAt(blobs: seq<FileEntry>, prev: map<string, string>, n: nat): set<nat>
    requires n <= |blobs|
  {
    set i: nat | i < n && blobs[i].path !in prev
  }

  function SameAt(blobs: seq<FileEntry>, prev: map<string, string>, n: nat): set<nat>
    requires n <= |blobs|
  {
    set i: nat | i < n && blobs[i].path in prev && prev[blobs[i].path] == blobs[i].sha
  }

  lemma {:induction false} NewPathsMean(blobs: seq<FileEntry>, prev: map<string, string>, n: nat)
    requires n <= |blobs|
    ensures NewPaths(blobs[..n], prev) == |NewAt(blobs, prev, n)|
  {
    if n == 0 {
      assert blobs[..0] == [] && NewAt(blobs, prev, 0) == {};
    } else {
      NewPathsMean(blobs, prev, n - 1);
      assert blobs[..n][..n - 1] == blobs[..n - 1];
      OneMoreNew(blobs, prev, n);
      hide NewAt;
    }
  }

  lemma OneMoreNew(blobs: seq<FileEntry>, prev: map<string, string>, n: nat)
    requires 0 < n <= |blobs|
    ensures |NewAt(blobs, prev, n)| == |NewAt(blobs, prev, n - 1)| + if blobs[n - 1].path in prev then 0 else 1
  {
    var before, all := NewAt(blobs, prev, n - 1), NewAt(blobs, prev, n);
    assert n - 1 !in before;
    assert all == if blobs[n - 1].path in prev then before else before + {n - 1};
  }

  lemma {:induction false} ChangedMeans(blobs: seq<FileEntry>, prev: map<string, string>, n: nat)
    requires n <= |blobs|
    ensures |Changed(blobs[..n], prev, true)| == n
    ensures |Changed(blobs[..n], prev, false)| == n - |SameAt(blobs, prev, n)|
  {
    if n == 0 {
      assert blobs[..0] == [] && SameAt(blobs, prev, 0) == {};
    } else {
      ChangedMeans(blobs, prev, n - 1);
      assert blobs[..n][..n - 1] == blobs[..n - 1];
      OneMoreSame(blobs, prev, n);
      hide SameAt;
    }
  }

  lemma OneMoreSame(blobs: seq<FileEntry>, prev: map<string, string>, n: nat)
    requires 0 < n <= |blobs|
    ensures var e := blobs[n - 1];
            |SameAt(blobs, prev, n)|
            == |SameAt(blobs, prev, n - 1)| + if e.path in prev && prev[e.path] == e.sha then 1 else 0
  {
    var before, all, e := SameAt(blobs, prev, n - 1), SameAt(blobs, prev, n), blobs[n - 1];
    assert n - 1 !in before;
    assert all == if e.path in prev && prev[e.path] == e.sha then before + {n - 1} else before;
  }

  /**
   What a sync reports: the files under new paths are added, the paths gone are removed, and with a disk that works the
   files the previous snapshot had as they are are reused, unless all are to be downloaded.
   */
  lemma ReportMeans(r: SyncResult, commit: string, force: bool, blobs: seq<FileEntry>, prev: map<string, string>,
                    fails: Faults)
    requires Reported(r, commit, force, blobs, prev, fails)
    ensures r.commit == commit && r.changed && r.added + r.updated + r.reused == |blobs|
    ensures r.added == |(set i: nat | i < |blobs| && blobs[i].path !in prev)|
    ensures r.removed == |(set p | p in prev && (forall e <- blobs :: e.path != p))|
    ensures force ==> r.reused == 0
    ensures Works(fails) && !force ==>
              r.reused == |(set i: nat | i < |blobs| && blobs[i].path in prev && prev[blobs[i].path] == blobs[i].sha)|
  {
    hide Works, NewPaths, Changed;
    assert blobs[..|blobs|] == blobs;
    NewPathsMean(blobs, prev, |blobs|);
    ChangedMeans(blobs, prev, |blobs|);
    assert (set p | p in prev && (forall e <- blobs :: e.path != p)) == prev.Keys - Paths(blobs);
  }

  lemma StillFaithful(env: Env, fetch: Fetch, fewer: seq<FileEntry>, blobs: seq<FileEntry>)
    requires Faithful(env, fetch, blobs) && Entries(fewer) <= Entries(blobs)
    ensures Faithful(env, fetch, fewer) && (CanFetch(env, fetch, blobs) ==> CanFetch(env, fetch, fewer))
  {
    forall e | e in fewer && fetch(e).Some?
      ensures env.hash(fetch(e).value) == e.sha
    {
      assert e in Entries(fewer);
    }
    forall e | e in fewer && CanFetch(env, fetch, blobs)
      ensures fetch(e).Some? && env.clean(e.path).Some?
    {
      assert e in Entries(fewer);
    }
  }

  /** A sync that failed ends with the snapshot and the listings there were. */
  method GiveUp(env: Env, s: State, fails: Faults, ghost start: State) returns (s': State)
    requires Inv(env, start) && Quietly(env, start, s)
    requires !s.writer.Idle? && !s.writer.Pruning? && !s.writer.Discarding?
    requires !s.writer.Touching? && !s.writer.TouchReady?
    ensures Reaches(env, start, s') && s'.writer.Idle?
    ensures Live(s'.disk) == Live(start.disk) && s'.published == start.published
    ensures Works(fails) ==> s.writer.name !in s'.disk.snaps
  {
    hide Inv, Quietly, Live, Reaches;
    s' := Discard(env, s, fails, start);
    QuietlySame(env, start, s');
    QuietlyReaches(env, start, s');
  }

  /** From staging to the end: the snapshot is published, or discarded and the live one left as it was. */
  method Fill(env: Env, s: State, commit: string, force: bool, blobs: seq<FileEntry>, prev: map<string, string>,
              fetch: Fetch, doomed: set<Name>, fails: Faults, ghost start: State)
    returns (r: Option<SyncResult>, s': State)
    requires Inv(env, start) && Quietly(env, start, s) && FromLive(start.disk, prev)
    requires Faithful(env, fetch, blobs)
    requires s.writer.Staging? && s.writer.manifest.commit == commit && s.writer.name !in doomed
    requires StagingFor(s, s.writer.name, s.writer.manifest, Entries(blobs), false)
    ensures Reaches(env, start, s') && s'.writer.Idle?
    ensures r.None? ==> Live(s'.disk) == Live(start.disk) && s'.published == start.published
    ensures r.Some? ==>
              && r.value.changed && Reported(r.value, commit, force, blobs, prev, fails)
              && Live(s'.disk).Some? && Live(s'.disk).value.commit == commit
              && Live(s'.disk).value.files == s.writer.manifest.files && Present(env, Live(s'.disk).value)
              && Right(env, s'.published, s.writer.manifest.files, Live(s'.disk).value.content)
              && s'.published == start.published + [s.writer.manifest.files]
    ensures Works(fails) && CanFetch(env, fetch, Changed(blobs, prev, force)) ==> r.Some?
    ensures Works(fails) ==> s'.disk.snaps.Keys !! if r.Some? then doomed else {s.writer.name}
  {
    hide Inv, Quietly, Live, Reaches, FromLive, NewPaths, Right, Present, Entries, Paths, Changed,
         CanFetch, Works;
    var toDownload, reused;
    toDownload, reused, s' := Partition(env, s, blobs, prev, force, fails, start);
    var ok;
    StillFaithful(env, fetch, toDownload, blobs);
    ok, s' := Download(env, s', toDownload, fetch, fails, start);
    if !ok {
      s' := GiveUp(env, s', fails, start);
      return None, s';
    }
    var added, updated := CountAdded(toDownload, prev);
    var removed := CountRemoved(blobs, prev);
    ok, s' := Prepare(env, s', fails, start);
    if !ok {
      s' := GiveUp(env, s', fails, start);
      return None, s';
    }
    QuietlySame(env, start, s');
    s' := SwingAndPrune(env, s', doomed, fails, start);
    r := Some(SyncResult(commit, added, updated, removed, reused, true));
  }

  lemma SameEntries(files: seq<FileEntry>, blobs: seq<FileEntry>)
    requires Entries(files) == Entries(blobs) && blobs != []
    ensures files != []
  {
    assert blobs[0] in Entries(files);
  }

  /** The commit is the one the live snapshot was made of, and nothing asks for more. */
  predicate UpToDate(d: Disk, commit: Option<string>, force: bool) {
    !force && commit.Some? && Readable(d) && LiveManifest(d).commit == commit.value
  }

  /** The hash the live snapshot has for each path. */
  ghost predicate PrevOf(d: Disk, prev: map<string, string>) {
    if Readable(d) then
      && (forall p <- prev :: FileEntry(p, prev[p]) in LiveManifest(d).files)
      && forall e <- LiveManifest(d).files :: e.path in prev
    else prev == map[]
  }

  lemma LiveCommit(env: Env, s: State)
    requires Inv(env, s)
    ensures Readable(s.disk) <==> Live(s.disk).Some?
    ensures Readable(s.disk) ==> Live(s.disk).value.commit == LiveManifest(s.disk).commit
  {
    hide LiveInv, WriterInv;
  }

  lemma {:induction false} ChangedFetched(env: Env, fetch: Fetch, blobs: seq<FileEntry>, prev: map<string, string>,
                                          force: bool)
    ensures (forall e <- blobs | force || e.path !in prev || prev[e.path] != e.sha ::
               fetch(e).Some? && env.clean(e.path).Some?)
            ==> CanFetch(env, fetch, Changed(blobs, prev, force))
  {
    if blobs != [] {
      var n := |blobs| - 1;
      ChangedFetched(env, fetch, blobs[..n], prev, force);
      assert blobs == blobs[..n] + [blobs[n]];
    }
  }

  /** Sync: what it fetches from the server is given, None where that failed. */
  method Sync(env: Env, start: State, commit: Option<string>, force: bool, blobs: Option<seq<FileEntry>>,
              files: seq<FileEntry>, fetch: Fetch, name: Name, now: int, doomed: set<Name>, fails: Faults)
    returns (r: Option<SyncResult>, s: State)
    requires Inv(env, start) && start.writer.Idle?
    // files is blobs, sorted.
    requires blobs.Some? ==> Faithful(env, fetch, blobs.value) && Entries(files) == Entries(blobs.value)
    requires name !in start.disk.snaps && name !in start.history && name !in doomed
    ensures Reaches(env, start, s) && s.writer.Idle?
    ensures r.None? ==> Live(s.disk) == Live(start.disk) && s.published == start.published
    ensures UpToDate(start.disk, commit, force) ==>
              && Live(s.disk) == Live(start.disk) && s.published == start.published && (Works(fails) ==> r.Some?)
              && (r.Some? ==> && !r.value.changed && r.value.commit == commit.value
                              && r.value.added == r.value.updated == r.value.removed == 0
                              && r.value.reused == |LiveManifest(start.disk).files|
                              && Readable(s.disk) && LiveManifest(s.disk).checkedAt == now)
    ensures !UpToDate(start.disk, commit, force) && r.Some? ==>
              && commit.Some? && blobs.Some? && r.value.changed
              && Live(s.disk).Some? && Live(s.disk).value.commit == commit.value
              && Live(s.disk).value.files == files && Present(env, Live(s.disk).value)
              && s.published == start.published + [files]
              && Right(env, s.published, files, Live(s.disk).value.content)
              && exists prev ::
                   PrevOf(start.disk, prev) && Reported(r.value, commit.value, force, blobs.value, prev, fails)
    // It leaves neither the old snapshots it replaced nor what it staged in vain.
    ensures Works(fails) && r.Some? && r.value.changed ==> s.disk.snaps.Keys !! doomed
    ensures Works(fails) && r.None? ==> name !in s.disk.snaps
    ensures r.Some? ==>
              commit.Some?
              && (r.value.changed
                  <==> force || !(Live(start.disk).Some? && Live(start.disk).value.commit == commit.value))
    // On a disk that works it is enough that the server has what the live snapshot has not.
    ensures commit.Some? && blobs.Some? && blobs.value != [] && Works(fails)
            && (forall prev | PrevOf(start.disk, prev) ::
                  forall e <- blobs.value | force || e.path !in prev || prev[e.path] != e.sha ::
                    fetch(e).Some? && env.clean(e.path).Some?)
            ==> r.Some?
  {
    hide Inv, Quietly, Reaches, Right, Present, Works, CanFetch, Reported, Changed;
    LiveCommit(env, start);
    hide Live;
    s := start;
    Stays(env, start);
    QuietlyReaches(env, start, start);
    if commit.None? {
      return None, s;
    }
    var prev: map<string, string> := map[];
    if Readable(s.disk) {
      var m := LiveManifest(s.disk);
      if !force && m.commit == commit.value {
        var ok;
        ok, s := Touch(env, start, now, fails);
        QuietlySame(env, start, s);
        QuietlyReaches(env, start, s);
        return if ok then Some(SyncResult(commit.value, 0, 0, 0, |m.files|, false)) else None, s;
      }
      prev := PrevShas(m.files);
    }
    if blobs.None? || blobs.value == [] {
      return None, s;
    }
    SameEntries(files, blobs.value);
    var begin := StartSync(name, Manifest(commit.value, files, now));
    if fails(begin) {
      assert !Works(fails) by { Failed(fails, begin); }
      return None, s;
    }
    s := Do(env, s, begin, start);
    assert PrevOf(start.disk, prev);
    ChangedFetched(env, fetch, blobs.value, prev, force);
    r, s := Fill(env, s, commit.value, force, blobs.value, prev, fetch, doomed, fails, start);
  }
}
