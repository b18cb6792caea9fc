/**
 The on-disk docs cache (internal/docs/cache.go, internal/docs/sync.go) as steps over what a crash leaves
 behind: the current pointer and the snapshot directories. One writer at a time; every write of a file is two
 steps, with the file torn in between, and renames are atomic.
 */
module DocsCache {
  import opened Wrappers

  type Name = string

  /** One listed document and the hash its content has on the server. */
  datatype FileEntry = FileEntry(path: string, sha: string)

  datatype Manifest = Manifest(commit: string, files: seq<FileEntry>, checkedAt: int)

  /** A file while it is written, and once it is. */
  datatype File<T> = Torn | Whole(value: T)

  /** A snapshot directory: manifest.json, its temporary copy, and files/ by clean path. */
  datatype Snapshot = Snapshot(manifest: Option<File<Manifest>>, manifestTmp: Option<File<Manifest>>,
                               files: map<string, File<string>>)

  /** current.json, its temporary copy, and snapshots/. */
  datatype Disk = Disk(pointer: Option<File<Name>>, pointerTmp: Option<File<Name>>, snaps: map<Name, Snapshot>)

  /** Where the writer is: between syncs, in one, or refreshing the time of the last check. */
  datatype Writer =
    | Idle
    | Staging(name: Name, manifest: Manifest, todo: set<FileEntry>, writing: set<FileEntry>, downloading: bool)
    | WritingManifest(name: Name, manifest: Manifest)
    | WritingPointer(name: Name, manifest: Manifest)
    | PointerReady(name: Name, manifest: Manifest)
    | Pruning(keep: Name, doomed: set<Name>)
    | Discarding(name: Name)
    | Touching(name: Name, manifest: Manifest)
    | TouchReady(name: Name, manifest: Manifest)

  /** A published snapshot: its commit, its listed files, and their content by clean path. */
  datatype Published = Published(commit: string, files: seq<FileEntry>, content: map<string, string>)

  /**
   The last two parts, which only the proofs use, record the run: what every snapshot held when the pointer was
   swung to it, and the listings published, in order.
   */
  datatype State = State(disk: Disk, writer: Writer, history: map<Name, Published>, published: seq<seq<FileEntry>>)

  /** The hash of contents, and safeRelPath: the clean form of a path, None when it is refused. */
  datatype Env = Env(hash: string -> string, clean: string -> Option<string>)

  function Entries(files: seq<FileEntry>): set<FileEntry> {
    set e | e in files
  }

  /** The snapshot's file for entry e is there, and is what e says. */
  predicate Holds(env: Env, snap: Snapshot, e: FileEntry) {
    var clean := env.clean(e.path);
    clean.Some? && clean.value in snap.files && snap.files[clean.value].Whole?
    && env.hash(snap.files[clean.value].value) == e.sha
  }

  /** A snapshot ready for readers: a whole manifest, and every file it lists. */
  ghost predicate Complete(env: Env, snap: Snapshot) {
    && snap.manifest.Some? && snap.manifest.value.Whole?
    && forall e <- snap.manifest.value.value.files :: Holds(env, snap, e)
  }

  // ---------- Steps ----------

  /** What os.RemoveAll takes away at a time. */
  datatype Part = DocFile(path: string) | ManifestFile | ManifestTmp | Directory

  datatype Step =
    | StartSync(name: Name, manifest: Manifest)
    | StartFile(entry: FileEntry)
    | StartDownloads
    | FinishReused(entry: FileEntry)
    | FinishDownloaded(entry: FileEntry, content: string)
    | StartManifest
    | FinishManifest
    | StartPointer
    | FinishPointer
    | SwingPointer(doomed: set<Name>)
    | Remove(name: Name, part: Part)
    | EndRemoving
    | Fail
    | StartTouch(checkedAt: int)
    | FinishTouchTmp
    | RenameTouch
    | Crash

  function Bytes(f: File<string>): string {
    if f.Whole? then f.value else ""
  }

  /** The snapshot current.json names, when its manifest can be read. */
  predicate Readable(d: Disk) {
    && d.pointer.Some? && d.pointer.value.Whole? && d.pointer.value.value in d.snaps
    && var snap := d.snaps[d.pointer.value.value];
    snap.manifest.Some? && snap.manifest.value.Whole?
  }

  /** A step of staging writes entry e under its clean path. */
  predicate CanWrite(env: Env, s: State, e: FileEntry, from: set<FileEntry>) {
    s.writer.Staging? && s.writer.name in s.disk.snaps && e in from && env.clean(e.path).Some?
  }

  ghost predicate Enabled(env: Env, s: State, step: Step) {
    var d, w := s.disk, s.writer;
    match step
    // The name is a fresh one, made of the time and the process.
    case StartSync(name, manifest) =>
      w.Idle? && name !in d.snaps && name !in s.history && manifest.files != []
    // A file whose reuse failed is written again, and so is one listed twice.
    case StartFile(e) => w.Staging? && CanWrite(env, s, e, Entries(w.manifest.files))
    // Whatever is reused is reused before anything is downloaded.
    case StartDownloads => w.Staging?
    // The live snapshot lists the file with the same hash, and has it.
    case FinishReused(e) =>
      && w.Staging? && !w.downloading && CanWrite(env, s, e, w.writing) && Readable(d)
      && var live := d.snaps[d.pointer.value.value];
      e in live.manifest.value.value.files && env.clean(e.path).value in live.files
    // The server sends the content it said it would.
    case FinishDownloaded(e, content) =>
      w.Staging? && w.downloading && CanWrite(env, s, e, w.writing) && env.hash(content) == e.sha
    case StartManifest => w.Staging? && w.name in d.snaps && w.todo == {} && w.writing == {}
    case FinishManifest => w.WritingManifest? && w.name in d.snaps
    case StartPointer => w.WritingPointer?
    case FinishPointer => w.WritingPointer?
    case SwingPointer(doomed) => w.PointerReady? && w.name in d.snaps && w.name !in doomed
    case Remove(name, _) =>
      name in d.snaps && ((w.Pruning? && name in w.doomed) || (w.Discarding? && name == w.name))
    case EndRemoving => w.Pruning? || w.Discarding?
    case Fail => !w.Idle? && !w.Pruning? && !w.Discarding?
    case StartTouch(_) => w.Idle? && Readable(d)
    case FinishTouchTmp => w.Touching? && w.name in d.snaps
    case RenameTouch => w.TouchReady? && w.name in d.snaps && d.snaps[w.name].manifestTmp.Some?
    case Crash => true
  }

  function WithSnap(d: Disk, name: Name, snap: Snapshot): Disk {
    d.(snaps := d.snaps[name := snap])
  }

  /** The disk with entry e of snapshot name holding f. */
  function WithFile(env: Env, d: Disk, name: Name, e: FileEntry, f: File<string>): Disk
    requires name in d.snaps && env.clean(e.path).Some?
  {
    WithSnap(d, name, d.snaps[name].(files := d.snaps[name].files[env.clean(e.path).value := f]))
  }

  function Without(d: Disk, name: Name, part: Part): Disk
    requires name in d.snaps
  {
    var snap := d.snaps[name];
    match part
    case DocFile(path) => WithSnap(d, name, snap.(files := snap.files - {path}))
    case ManifestFile => WithSnap(d, name, snap.(manifest := None))
    case ManifestTmp => WithSnap(d, name, snap.(manifestTmp := None))
    case Directory => d.(snaps := d.snaps - {name})
  }

  function PublishedAs(snap: Snapshot, manifest: Manifest): Published {
    Published(manifest.commit, manifest.files, map p | p in snap.files :: Bytes(snap.files[p]))
  }

  function After(env: Env, s: State, step: Step): State
    requires Enabled(env, s, step)
  {
    var d, w := s.disk, s.writer;
    match step
    case StartSync(name, m) =>
      s.(disk := WithSnap(d, name, Snapshot(None, None, map[])),
         writer := Staging(name, m, Entries(m.files), {}, false))
    case StartFile(e) =>
      s.(disk := WithFile(env, d, w.name, e, Torn), writer := w.(todo := w.todo - {e}, writing := w.writing + {e}))
    case StartDownloads => s.(writer := w.(downloading := true))
    case FinishReused(e) =>
      var content := Bytes(d.snaps[d.pointer.value.value].files[env.clean(e.path).value]);
      s.(disk := WithFile(env, d, w.name, e, Whole(content)), writer := w.(writing := w.writing - {e}))
    case FinishDownloaded(e, content) =>
      s.(disk := WithFile(env, d, w.name, e, Whole(content)), writer := w.(writing := w.writing - {e}))
    case StartManifest =>
      s.(disk := WithSnap(d, w.name, d.snaps[w.name].(manifest := Some(Torn))),
         writer := WritingManifest(w.name, w.manifest))
    case FinishManifest =>
      s.(disk := WithSnap(d, w.name, d.snaps[w.name].(manifest := Some(Whole(w.manifest)))),
         writer := WritingPointer(w.name, w.manifest))
    case StartPointer => s.(disk := d.(pointerTmp := Some(Torn)))
    case FinishPointer =>
      s.(disk := d.(pointerTmp := Some(Whole(w.name))), writer := PointerReady(w.name, w.manifest))
    case SwingPointer(doomed) =>
      State(d.(pointer := d.pointerTmp, pointerTmp := None), Pruning(w.name, doomed),
            s.history[w.name := PublishedAs(d.snaps[w.name], w.manifest)], s.published + [w.manifest.files])
    case Remove(name, part) => s.(disk := Without(d, name, part))
    case EndRemoving => s.(writer := Idle)
    case Fail => s.(writer := if w.Touching? || w.TouchReady? then Idle else Discarding(w.name))
    case StartTouch(checkedAt) =>
      var live := d.pointer.value.value;
      var m := d.snaps[live].manifest.value.value.(checkedAt := checkedAt);
      s.(disk := WithSnap(d, live, d.snaps[live].(manifestTmp := Some(Torn))), writer := Touching(live, m))
    case FinishTouchTmp =>
      s.(disk := WithSnap(d, w.name, d.snaps[w.name].(manifestTmp := Some(Whole(w.manifest)))),
         writer := TouchReady(w.name, w.manifest))
    case RenameTouch =>
      var snap := d.snaps[w.name];
      s.(disk := WithSnap(d, w.name, snap.(manifest := snap.manifestTmp, manifestTmp := None)), writer := Idle)
    case Crash => s.(writer := Idle)
  }

  /** A crash leaves the disk as it is, and a sync can start after it, whatever it left half done. */
  lemma CrashAllowsSync(env: Env, s: State, name: Name, manifest: Manifest)
    requires name !in s.disk.snaps && name !in s.history && manifest.files != []
    ensures Enabled(env, s, Crash) && Enabled(env, After(env, s, Crash), StartSync(name, manifest))
    ensures After(env, s, Crash).disk == s.disk && After(env, s, Crash).history == s.history
  {
  }

  // ---------- What every step keeps ----------

  /** What is left of a published snapshot is as it was published, but for the time of the last check. */
  ghost predicate Intact(snap: Snapshot, p: Published) {
    && (snap.manifest.Some? ==> && snap.manifest.value.Whole? && snap.manifest.value.value.commit == p.commit
                                && snap.manifest.value.value.files == p.files)
    && forall path <- snap.files :: path in p.content && snap.files[path] == Whole(p.content[path])
  }

  /** Nothing of it is missing either. */
  ghost predicate AllThere(snap: Snapshot, p: Published) {
    Intact(snap, p) && snap.manifest.Some? && snap.files.Keys == p.content.Keys
  }

  /** The entries of a listing under a clean path. */
  function Under(env: Env, files: seq<FileEntry>, clean: string): set<FileEntry> {
    set e | e in files && env.clean(e.path) == Some(clean)
  }

  predicate OneHash(entries: set<FileEntry>, sha: string) {
    forall e <- entries :: e.sha == sha
  }

  /**
   The last of the listings published is sound at a clean path: it lists one hash there, and so did the one before
   it, and so on back, for as long as all that is listed there could be reused from one listing to the next.
   */
  ghost predicate Sound(env: Env, published: seq<seq<FileEntry>>, clean: string, sha: string)
    decreases |published|
  {
    published != [] ==>
      var n := |published| - 1;
      var under := Under(env, published[n], clean);
      && OneHash(under, sha)
      && (n > 0 && under <= Entries(published[n - 1]) ==> Sound(env, published[..n], clean, sha))
  }

  /** Every file listed is in content, with the content its hash says where the listings so far are sound. */
  ghost predicate Right(env: Env, published: seq<seq<FileEntry>>, files: seq<FileEntry>, content: map<string, string>) {
    forall e <- files ::
      && env.clean(e.path).Some? && env.clean(e.path).value in content
      && (Sound(env, published, env.clean(e.path).value, e.sha)
          ==> env.hash(content[env.clean(e.path).value]) == e.sha)
  }

  /** Every file a published snapshot lists was in it. */
  ghost predicate Present(env: Env, p: Published) {
    forall e <- p.files :: env.clean(e.path).Some? && env.clean(e.path).value in p.content
  }

  /** Entry e of a snapshot being staged is in it, and is what it says where the listings are sound. */
  ghost predicate Arrived(env: Env, published: seq<seq<FileEntry>>, snap: Snapshot, e: FileEntry) {
    var clean := env.clean(e.path);
    && clean.Some? && clean.value in snap.files && snap.files[clean.value].Whole?
    && (Sound(env, published, clean.value, e.sha) ==> env.hash(snap.files[clean.value].value) == e.sha)
  }

  /** It has arrived, or some entry under the same clean path still has to be written. */
  ghost predicate OnItsWay(env: Env, published: seq<seq<FileEntry>>, snap: Snapshot, w: Writer, e: FileEntry)
    requires w.Staging?
  {
    Arrived(env, published, snap, e) || exists f | f in w.todo + w.writing :: env.clean(f.path) == env.clean(e.path)
  }

  /** A snapshot's files are those of listed entries. */
  ghost predicate Listed(env: Env, snap: Snapshot, files: seq<FileEntry>) {
    forall path <- snap.files :: exists e | e in files :: env.clean(e.path) == Some(path)
  }

  ghost predicate Staged(env: Env, s: State, m: Manifest, snap: Snapshot) {
    Listed(env, snap, m.files) && forall e <- m.files :: Arrived(env, s.published + [m.files], snap, e)
  }

  /** What is finished before anything is downloaded is listed by the live snapshot too. */
  ghost predicate OnlyReused(s: State, m: Manifest, pending: set<FileEntry>) {
    forall e <- m.files :: e in pending || (s.published != [] && e in s.published[|s.published| - 1])
  }

  ghost predicate WriterInv(env: Env, s: State) {
    var d, w := s.disk, s.writer;
    match w
    case Idle => true
    case Staging(name, m, todo, writing, downloading) =>
      && name in d.snaps && name !in s.history && todo + writing <= Entries(m.files)
      && Listed(env, d.snaps[name], m.files) && (!downloading ==> OnlyReused(s, m, todo + writing))
      && forall e <- m.files :: OnItsWay(env, s.published + [m.files], d.snaps[name], w, e)
    case WritingManifest(name, m) => name in d.snaps && name !in s.history && Staged(env, s, m, d.snaps[name])
    case WritingPointer(name, m) =>
      && name in d.snaps && name !in s.history && Staged(env, s, m, d.snaps[name])
      && d.snaps[name].manifest == Some(Whole(m))
    case PointerReady(name, m) =>
      && name in d.snaps && name !in s.history && Staged(env, s, m, d.snaps[name])
      && d.snaps[name].manifest == Some(Whole(m)) && d.pointerTmp == Some(Whole(name))
    case Pruning(keep, doomed) => d.pointer == Some(Whole(keep)) && keep !in doomed
    case Discarding(name) => name !in s.history
    case Touching(name, m) =>
      name in s.history && m.commit == s.history[name].commit && m.files == s.history[name].files
    case TouchReady(name, m) =>
      && name in s.history && m.commit == s.history[name].commit && m.files == s.history[name].files
      && (name in d.snaps ==> d.snaps[name].manifestTmp == Some(Whole(m)))
  }

  ghost predicate PointerInv(s: State) {
    && (s.disk.pointer.Some? <==> s.published != [])
    && (s.disk.pointer.Some? ==>
          && s.disk.pointer.value.Whole?
          && var live := s.disk.pointer.value.value;
          && live in s.history && live in s.disk.snaps && AllThere(s.disk.snaps[live], s.history[live])
          && s.history[live].files == s.published[|s.published| - 1])
  }

  ghost predicate LiveInv(env: Env, s: State) {
    s.disk.pointer.Some? && s.disk.pointer.value.Whole? && s.disk.pointer.value.value in s.history ==>
      var p := s.history[s.disk.pointer.value.value];
      Right(env, s.published, p.files, p.content)
  }

  ghost predicate HistoryInv(env: Env, s: State) {
    forall n <- s.history :: Present(env, s.history[n]) && (n in s.disk.snaps ==> Intact(s.disk.snaps[n], s.history[n]))
  }

  ghost predicate Inv(env: Env, s: State) {
    PointerInv(s) && LiveInv(env, s) && HistoryInv(env, s) && WriterInv(env, s)
  }

  lemma StepKeepsPointer(env: Env, s: State, step: Step)
    requires Inv(env, s) && Enabled(env, s, step)
    ensures PointerInv(After(env, s, step))
  {
    hide Sound, Right, Present;
  }

  /** A listed snapshot every file of which has arrived is right once published. */
  lemma StagedIsRight(env: Env, s: State, m: Manifest, snap: Snapshot)
    requires Staged(env, s, m, snap)
    ensures Right(env, s.published + [m.files], m.files, PublishedAs(snap, m).content)
    ensures Present(env, PublishedAs(snap, m))
    ensures snap.manifest == Some(Whole(m)) ==> AllThere(snap, PublishedAs(snap, m))
  {
    hide Sound;
  }

  lemma StepKeepsLive(env: Env, s: State, step: Step)
    requires Inv(env, s) && Enabled(env, s, step)
    ensures LiveInv(env, After(env, s, step))
  {
    hide Right, Present, Staged, Listed, Sound, Intact;
    if step.SwingPointer? {
      StagedIsRight(env, s, s.writer.manifest, s.disk.snaps[s.writer.name]);
    }
  }

  lemma StepKeepsHistory(env: Env, s: State, step: Step)
    requires Inv(env, s) && Enabled(env, s, step)
    ensures HistoryInv(env, After(env, s, step))
  {
    hide Right, Present, Staged, Listed, Sound;
    if step.SwingPointer? {
      StagedIsRight(env, s, s.writer.manifest, s.disk.snaps[s.writer.name]);
    }
  }

  predicate WritesFile(step: Step) {
    step.StartFile? || step.FinishReused? || step.FinishDownloaded?
  }

  /** What the live snapshot has for entry e is right for the next listing too, when all that is left to write under
      the clean path of e is e, and nothing under it was downloaded. */
  lemma ReusedIsSound(env: Env, s: State, e: FileEntry)
    requires Inv(env, s) && Enabled(env, s, FinishReused(e))
    requires forall f <- s.writer.todo + s.writer.writing :: env.clean(f.path) == env.clean(e.path) ==> f == e
    ensures var clean := env.clean(e.path).value;
            Sound(env, s.published + [s.writer.manifest.files], clean, e.sha)
            ==> env.hash(Bytes(s.disk.snaps[s.disk.pointer.value.value].files[clean])) == e.sha
  {
    hide Sound, Present, HistoryInv, Listed, OnItsWay;
    var m, clean := s.writer.manifest, env.clean(e.path).value;
    var next := s.published + [m.files];
    if Sound(env, next, clean, e.sha) {
      var last := s.published[|s.published| - 1];
      assert e in last;
      forall f <- Under(env, m.files, clean) ensures f in Entries(last) {
      }
      SoundBack(env, s.published, m.files, clean, e.sha);
      assert Sound(env, s.published, clean, e.sha);
    }
  }

  /** Soundness one listing back. */
  lemma SoundBack(env: Env, published: seq<seq<FileEntry>>, files: seq<FileEntry>, clean: string, sha: string)
    requires published != [] && Sound(env, published + [files], clean, sha)
    ensures OneHash(Under(env, files, clean), sha)
    ensures Under(env, files, clean) <= Entries(published[|published| - 1]) ==> Sound(env, published, clean, sha)
  {
    assert (published + [files])[..|published|] == published;
  }

  lemma SoundHere(env: Env, published: seq<seq<FileEntry>>, files: seq<FileEntry>, clean: string, sha: string)
    requires Sound(env, published + [files], clean, sha)
    ensures OneHash(Under(env, files, clean), sha)
  {
    hide OneHash, Under;
  }

  /** An entry of the listing is on its way after a file is written as it was before. */
  lemma FileStepKeepsEntry(env: Env, s: State, step: Step, e: FileEntry)
    requires Inv(env, s) && Enabled(env, s, step) && WritesFile(step) && e in s.writer.manifest.files
    ensures var t := After(env, s, step);
            && t.writer.Staging? && s.writer.name in t.disk.snaps
            && OnItsWay(env, s.published + [s.writer.manifest.files], t.disk.snaps[s.writer.name], t.writer, e)
  {
    hide Sound, Present, Right, HistoryInv, Listed, PointerInv, LiveInv, OnlyReused;
    var w, next := s.writer, s.published + [s.writer.manifest.files];
    var t := After(env, s, step);
    assert OnItsWay(env, next, s.disk.snaps[w.name], w, e);
    if env.clean(e.path) != env.clean(step.entry.path) {
    } else if f :| f in w.todo + w.writing && env.clean(f.path) == env.clean(e.path) && f != step.entry {
      assert f in t.writer.todo + t.writer.writing;
    } else if step.StartFile? {
      assert step.entry in t.writer.todo + t.writer.writing;
    } else {
      var clean := env.clean(e.path).value;
      if Sound(env, next, clean, e.sha) {
        SoundHere(env, s.published, w.manifest.files, clean, e.sha);
        assert step.entry in Under(env, w.manifest.files, clean);
        if step.FinishReused? {
          ReusedIsSound(env, s, step.entry);
        }
      }
    }
  }

  /** A finished file is what its entry says: one that is reused has the hash its live snapshot lists it with. */
  lemma FileStepKeepsWriter(env: Env, s: State, step: Step)
    requires Inv(env, s) && Enabled(env, s, step) && WritesFile(step)
    ensures WriterInv(env, After(env, s, step))
  {
    hide Sound, Present, Right, HistoryInv, OnItsWay, Arrived, LiveInv;
    FileStepKeepsRest(env, s, step);
    forall e <- s.writer.manifest.files
      ensures OnItsWay(env, s.published + [s.writer.manifest.files], After(env, s, step).disk.snaps[s.writer.name],
                       After(env, s, step).writer, e)
    {
      FileStepKeepsEntry(env, s, step, e);
    }
  }

  lemma FileStepKeepsRest(env: Env, s: State, step: Step)
    requires Inv(env, s) && Enabled(env, s, step) && WritesFile(step)
    ensures var t, m := After(env, s, step), s.writer.manifest;
            && t.writer.Staging? && t.writer.name in t.disk.snaps
            && t.writer.todo + t.writer.writing <= Entries(m.files)
            && Listed(env, t.disk.snaps[t.writer.name], m.files)
            && (!t.writer.downloading ==> OnlyReused(t, m, t.writer.todo + t.writer.writing))
  {
    hide Sound, Present, Right, HistoryInv, OnItsWay, Arrived, LiveInv;
  }

  lemma StepKeepsWriter(env: Env, s: State, step: Step)
    requires Inv(env, s) && Enabled(env, s, step)
    ensures WriterInv(env, After(env, s, step))
  {
    if WritesFile(step) {
      FileStepKeepsWriter(env, s, step);
    }
  }

  lemma StepKeepsInv(env: Env, s: State, step: Step)
    requires Inv(env, s) && Enabled(env, s, step)
    ensures Inv(env, After(env, s, step))
  {
    hide After, Enabled, PointerInv, LiveInv, HistoryInv, WriterInv;
    StepKeepsPointer(env, s, step);
    StepKeepsLive(env, s, step);
    StepKeepsHistory(env, s, step);
    StepKeepsWriter(env, s, step);
  }

  // ---------- Whole runs ----------

  /** The steps lead from s to s'. */
  ghost predicate Runs(env: Env, s: State, steps: seq<Step>, s': State)
    decreases |steps|
  {
    if steps == [] then s' == s
    else Enabled(env, s, steps[0]) && Runs(env, After(env, s, steps[0]), steps[1..], s')
  }

  lemma {:induction false} RunsThen(env: Env, s: State, steps: seq<Step>, m: State, step: Step)
    requires Runs(env, s, steps, m) && Enabled(env, m, step)
    ensures Runs(env, s, steps + [step], After(env, m, step))
    decreases |steps|
  {
    hide Enabled, After;
    if steps == [] {
      assert ([step])[1..] == [];
    } else {
      assert (steps + [step])[1..] == steps[1..] + [step];
      RunsThen(env, After(env, s, steps[0]), steps[1..], m, step);
    }
  }

  /** Some steps lead from s to s'. */
  ghost predicate Reaches(env: Env, s: State, s': State) {
    exists steps: seq<Step> :: Runs(env, s, steps, s')
  }

  const NO_CACHE := State(Disk(None, None, map[]), Idle, map[], [])

  lemma {:induction false} RunKeepsInv(env: Env, s: State, steps: seq<Step>, s': State)
    requires Inv(env, s) && Runs(env, s, steps, s')
    ensures Inv(env, s')
    decreases |steps|
  {
    hide Enabled, Inv, After;
    if steps != [] {
      StepKeepsInv(env, s, steps[0]);
      RunKeepsInv(env, After(env, s, steps[0]), steps[1..], s');
    }
  }

  /**
   After any run from no cache at all, crashes and failed syncs included, current.json names a snapshot with a
   whole manifest and every file of the last listing published, just as it was published. Wherever the listings
   are sound, the file has the hash listed.
   */
  lemma PointerIsPublished(env: Env, steps: seq<Step>, s: State)
    requires Runs(env, NO_CACHE, steps, s)
    ensures s.disk.pointer.Some? <==> s.published != []
    ensures s.disk.pointer.Some? ==>
              && Readable(s.disk)
              && var live := s.disk.pointer.value.value;
              var snap := s.disk.snaps[live];
              && live in s.history && AllThere(snap, s.history[live]) && Present(env, s.history[live])
              && snap.manifest.value.value.files == s.published[|s.published| - 1]
              && forall e <- snap.manifest.value.value.files :: Arrived(env, s.published, snap, e)
  {
    hide Runs, Enabled, After, Sound;
    RunKeepsInv(env, NO_CACHE, steps, s);
  }

  /** What a reader of the live snapshot sees: its listed files and all its content. */
  function Live(d: Disk): Option<Published> {
    if !Readable(d) then None
    else
      var snap := d.snaps[d.pointer.value.value];
      Some(PublishedAs(snap, snap.manifest.value.value))
  }

  lemma OtherStepKeepsLive(env: Env, s: State, step: Step)
    requires Inv(env, s) && Enabled(env, s, step) && !step.SwingPointer?
    ensures After(env, s, step).disk.pointer == s.disk.pointer && After(env, s, step).history == s.history
    ensures After(env, s, step).published == s.published
  {
    hide Right, Present, Staged, Listed, Intact;
  }

  lemma LiveIsHistory(env: Env, s: State)
    requires Inv(env, s)
    ensures Live(s.disk) == if s.disk.pointer.Some? then Some(s.history[s.disk.pointer.value.value]) else None
  {
    hide HistoryInv, WriterInv;
    if s.disk.pointer.Some? {
      var live := s.disk.pointer.value.value;
      assert PublishedAs(s.disk.snaps[live], s.disk.snaps[live].manifest.value.value).content
        == s.history[live].content;
    }
  }

  /**
   Until a sync swings the pointer, whatever else happens, a failure or a crash in the middle of it, the clean-up
   that follows, pruning, or a refresh of the time of the last check, readers go on seeing the same snapshot.
   */
  lemma {:induction false} UnpublishedSyncChangesNothing(env: Env, s: State, steps: seq<Step>, s': State)
    requires Inv(env, s) && Runs(env, s, steps, s') && forall step <- steps :: !step.SwingPointer?
    ensures Live(s'.disk) == Live(s.disk) && s'.disk.pointer == s.disk.pointer
    ensures s'.history == s.history && s'.published == s.published
    decreases |steps|
  {
    hide Enabled, Inv, After, Live;
    if steps != [] {
      var next := After(env, s, steps[0]);
      OtherStepKeepsLive(env, s, steps[0]);
      StepKeepsInv(env, s, steps[0]);
      LiveIsHistory(env, s);
      LiveIsHistory(env, next);
      UnpublishedSyncChangesNothing(env, next, steps[1..], s');
    }
  }

  /** A sync that swings the pointer makes the commit it resolved live, with exactly the files it enumerated. */
  lemma SwingPublishes(env: Env, s: State, step: Step)
    requires Inv(env, s) && Enabled(env, s, step) && step.SwingPointer?
    ensures var live := Live(After(env, s, step).disk);
            && live.Some? && live.value.commit == s.writer.manifest.commit
            && live.value.files == s.writer.manifest.files && Present(env, live.value)
            && Right(env, s.published + [s.writer.manifest.files], live.value.files, live.value.content)
    ensures After(env, s, step).published == s.published + [s.writer.manifest.files]
  {
    hide Right, Present;
    StepKeepsInv(env, s, step);
    LiveIsHistory(env, After(env, s, step));
  }

  /** Once published a snapshot is never published again, nor what it was published as forgotten. */
  lemma {:induction false} HistoryGrows(env: Env, s: State, steps: seq<Step>, s': State, n: Name)
    requires Inv(env, s) && Runs(env, s, steps, s') && n in s.history
    ensures n in s'.history && s'.history[n] == s.history[n]
    decreases |steps|
  {
    hide Inv, After, Enabled;
    if steps != [] {
      StepKeepsInv(env, s, steps[0]);
      StepGrowsHistory(env, s, steps[0], n);
      HistoryGrows(env, After(env, s, steps[0]), steps[1..], s', n);
    }
  }

  lemma StepGrowsHistory(env: Env, s: State, step: Step, n: Name)
    requires Inv(env, s) && Enabled(env, s, step) && n in s.history
    ensures n in After(env, s, step).history && After(env, s, step).history[n] == s.history[n]
  {
    hide Right, Present, Staged, Listed, Intact;
  }
}
