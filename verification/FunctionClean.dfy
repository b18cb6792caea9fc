/**
 Whether a function upload is exactly the commit (internal/deploycommit/function.go): functionClean and
 what it reads from git and disk, each once for a deploy of many functions.
 */
module FunctionClean {
  import opened Collections
  import opened Wrappers
  import opened Worktree
  import BlobFile
  import opened DeployCommit

  /** The repository's files on disk, and the hashes they are recorded over. */
  datatype Disk = Disk(lstat: Path -> Option<Node>, sha1: seq<BlobFile.Byte> -> string,
                       sha256: seq<BlobFile.Byte> -> string)

  datatype InputFile = InputFile(path: Path, file: BlobFile.File)

  /**
   UploadInputs: what an upload was made from, with paths relative to the project
   directory. dir is its path in the repository, if it is in one; placed says of a file under it that no
   symlink stands between.
   */
  datatype UploadInputs = UploadInputs(dir: Option<Path>, files: seq<InputFile>, feeds: Path -> bool,
                           shadowedBy: Path -> Option<Path>, roots: seq<Path>, paths: seq<Path>,
                           placed: Path -> bool)

  // ---------- What git lists ----------

  /** An index entry equals the commit's. */
  predicate AsCommitted(s: Repository, rec: IndexRecord) {
    rec.stage == "0" &&
    (|| (rec.path in s.tree && s.tree[rec.path] == Entry(rec.mode, rec.object_))
     || (rec.path in s.gitlinks && rec.mode == MODE_GITLINK && s.gitlinks[rec.path] == rec.object_))
  }

  /** The index differs from the commit at p. */
  predicate IsStaged(s: Repository, index: seq<IndexRecord>, p: Path) {
    || (exists rec :: rec in index && rec.path == p && !AsCommitted(s, rec))
    || ((p in s.tree || p in s.gitlinks) && forall rec <- index :: rec.path != p)
  }

  /**
   A path is not staged if and only if the records the index has there are what the commit holds: one at stage 0 with
   the committed mode and blob, one with a submodule's commit, or none for a path the commit lacks.
   */
  lemma StagedMeans(s: Repository, index: seq<IndexRecord>, p: Path)
    requires s.tree.Keys !! s.gitlinks.Keys
    ensures !IsStaged(s, index, p)
       <==> (set rec | rec in index && rec.path == p)
            == if p in s.tree then {IndexRecord(s.tree[p].mode, s.tree[p].blob, "0", p)}
               else if p in s.gitlinks then {IndexRecord("160000", s.gitlinks[p], "0", p)} else {}
  {
    var there := set rec | rec in index && rec.path == p;
    if !IsStaged(s, index, p) {
      forall rec | rec in there
        ensures AsCommitted(s, rec)
      {
      }
    } else if rec :| rec in index && rec.path == p && !AsCommitted(s, rec) {
      assert rec in there;
    }
  }

  /** git lists something untracked at or under p, or a directory of nothing else that p is in. */
  predicate IsUntracked(untracked: seq<Untracked>, p: Path) {
    exists u :: u in untracked && (p <= u.path || (u.isDir && u.path <= p))
  }

  // ---------- A committed file on disk ----------

  datatype DiskState = Changed | SameLink | Regular(file: BlobFile.File)

  /** onDisk: the committed file at path as it is on disk, Changed when it is gone or another kind of file. */
  function OnDisk(disk: Disk, path: Path, entry: Entry, mode: bool): DiskState {
    match disk.lstat(path)
    case None => Changed
    case Some(Link(target)) =>
      if entry.mode == MODE_SYMLINK && BlobFile.BlobID(disk.sha1, target) == entry.blob then SameLink else Changed
    case Some(File(content, executable)) =>
      if entry.mode == MODE_SYMLINK || (mode && (entry.mode == MODE_EXECUTABLE) != executable) then Changed
      else Regular(BlobFile.Recorded(disk.sha1, disk.sha256, content))
    case Some(_) => Changed
  }

  /** The file on disk at path is the committed one. */
  predicate EntryClean(s: Repository, disk: Disk, path: Path, entry: Entry, mode: bool) {
    match OnDisk(disk, path, entry, mode)
    case Changed => false
    case SameLink => true
    case Regular(file) => HasContent(s, path, entry, file)
  }

  /** What comparing one committed file comes to: it may depend on the attributes git has for it. */
  datatype Check = Fine | Bad | Depends(m: Match)

  function ContentCheck(path: Path, entry: Entry, file: BlobFile.File): Check {
    match Compare(path, entry, file)
    case Equal => Fine
    case Needs(m) => Depends(m)
    case Different => Bad
  }

  function EntryCheck(disk: Disk, path: Path, entry: Entry, mode: bool): Check {
    match OnDisk(disk, path, entry, mode)
    case Changed => Bad
    case SameLink => Fine
    case Regular(file) => ContentCheck(path, entry, file)
  }

  predicate Passes(s: Repository, check: Check) {
    match check
    case Fine => true
    case Bad => false
    case Depends(m) => s.git.attributes.Some? && Stores(s.git.attributes.value(m.path), s.autocrlf, m)
  }

  function TreeChecks(s: Repository, disk: Disk): (checks: map<Path, Check>)
    ensures checks.Keys == s.tree.Keys
    ensures forall path <- s.tree :: Passes(s, checks[path]) <==> EntryClean(s, disk, path, s.tree[path], s.fileMode)
  {
    map path | path in s.tree :: EntryCheck(disk, path, s.tree[path], s.fileMode)
  }

  /** matches are what the checks, none of which failed, depend on. */
  ghost predicate Gathered(checks: map<Path, Check>, matches: seq<Match>) {
    && (forall path <- checks :: !checks[path].Bad? && (checks[path].Depends? ==> checks[path].m in matches))
    && (forall m <- matches :: exists path :: path in checks && checks[path] == Depends(m))
  }

  lemma GatherOne(checks: map<Path, Check>, matches: seq<Match>, path: Path, check: Check)
    requires Gathered(checks, matches) && path !in checks && !check.Bad?
    ensures Gathered(checks[path := check], if check.Depends? then matches + [check.m] else matches)
  {
    var now := checks[path := check];
    forall m | m in matches
      ensures exists p :: p in now && now[p] == Depends(m)
    {
      var p :| p in checks && checks[p] == Depends(m);
      assert p in now && now[p] == checks[p];
    }
    assert path in now && now[path] == check;
  }

  lemma GatheredPass(s: Repository, checks: map<Path, Check>, matches: seq<Match>)
    requires Gathered(checks, matches)
    ensures (forall path <- checks :: Passes(s, checks[path]))
       <==> && (matches != [] ==> s.git.attributes.Some?)
            && (s.git.attributes.Some? ==> forall m <- matches :: Stores(s.git.attributes.value(m.path), s.autocrlf, m))
  {
    forall m | m in matches
      ensures exists path :: path in checks && checks[path] == Depends(m)
    {
    }
    if matches != [] {
      assert matches[0] in matches;
    }
  }

  /** Every tracked file is on disk as committed, and nothing is staged or untracked. */
  ghost predicate WholeRepositoryIsClean(s: Repository, disk: Disk) {
    && s.gitlinks == map[]
    && s.git.index.Some? && (forall p :: !IsStaged(s, s.git.index.value, p))
    && s.git.untracked == Some([])
    && forall path <- s.tree :: EntryClean(s, disk, path, s.tree[path], s.fileMode)
  }

  function Listed(index: seq<IndexRecord>): set<Path> {
    set rec | rec in index :: rec.path
  }

  // ---------- What clean means for a function ----------

  /** The committed files the upload holds, by repository path, as packaging read them. */
  function Read(s: Repository, dir: Path, files: seq<InputFile>): map<Path, BlobFile.File> {
    if files == [] then map[]
    else
      var last := files[|files| - 1];
      var read := Read(s, dir, files[..|files| - 1]);
      if dir + last.path in s.tree then read[dir + last.path := last.file] else read
  }

  /** The uploaded files the commit lacks. */
  function UncommittedFiles(s: Repository, dir: Path, files: seq<InputFile>): seq<Path> {
    if files == [] then []
    else
      var last := dir + files[|files| - 1].path;
      UncommittedFiles(s, dir, files[..|files| - 1]) + if last in s.tree then [] else [last]
  }

  /** The other paths read that the commit lacks though they are on disk. */
  function UncommittedPaths(s: Repository, disk: Disk, dir: Path, paths: seq<Path>): seq<Path> {
    if paths == [] then []
    else
      var last := dir + paths[|paths| - 1];
      UncommittedPaths(s, disk, dir, paths[..|paths| - 1])
      + if last in s.tree || disk.lstat(last).None? then [] else [last]
  }

  function Uncommitted(s: Repository, disk: Disk, dir: Path, x: UploadInputs): seq<Path> {
    UncommittedFiles(s, dir, x.files) + UncommittedPaths(s, disk, dir, x.paths)
  }

  function InRepository(dir: Path, paths: seq<Path>): set<Path> {
    set p | p in paths :: dir + p
  }

  function Uploaded(dir: Path, files: seq<InputFile>): set<Path> {
    set f | f in files :: dir + f.path
  }

  /** What functionClean's feeds answers for a repository path. */
  predicate Feeds(s: Repository, dir: Path, x: UploadInputs, path: Path) {
    path in Read(s, dir, x.files) || path in InRepository(dir, x.paths)
    || (Within(dir, path) && x.feeds(UnderDir(dir, path)))
  }

  /** What takes the place of path, in the repository. */
  function ShadowedBy(dir: Path, x: UploadInputs, path: Path): Option<Path> {
    if !Within(dir, path) || x.shadowedBy(UnderDir(dir, path)).None? then None
    else Some(dir + x.shadowedBy(UnderDir(dir, path)).value)
  }

  /** holds, or the upload does: there is a file at or under over. */
  predicate IsReplaced(s: Repository, dir: Path, x: UploadInputs, over: Path) {
    (exists q :: q in s.tree && over <= q) || exists u :: u in Uploaded(dir, x.files) && Within(over, u)
  }

  /** One committed file is as packaging needs it. */
  predicate InputMatches(s: Repository, disk: Disk, dir: Path, x: UploadInputs, path: Path)
    requires path in s.tree
  {
    var entry, read := s.tree[path], Read(s, dir, x.files);
    if Feeds(s, dir, x, path) then
      if path in read then entry.mode != MODE_SYMLINK && HasContent(s, path, entry, read[path])
      else path in InRepository(dir, x.paths) && EntryClean(s, disk, path, entry, false)
    else
      var over := ShadowedBy(dir, x, path);
      over.None? || IsReplaced(s, dir, x, over.value)
  }

  /** When functionClean says a function is clean. */
  ghost predicate IsClean(s: Repository, disk: Disk, x: UploadInputs) {
    x.dir.Some? &&
    var dir := x.dir.value;
    var uncommitted := Uncommitted(s, disk, dir, x);
    && (forall f <- x.files :: x.placed(f.path)) && (forall p <- x.paths + x.roots :: x.placed(p))
    && (x.roots != [] ==>
          s.git.untracked.Some? && forall p <- InRepository(dir, x.roots) :: !IsUntracked(s.git.untracked.value, p))
    && Distinct(uncommitted)
    && (uncommitted != [] ==> s.git.ignores.Some? && forall p <- uncommitted :: s.git.ignores.value(p))
    && (forall path <- s.gitlinks :: !Feeds(s, dir, x, path))
    && s.git.index.Some?
    && (forall p | IsStaged(s, s.git.index.value, p) :: !Feeds(s, dir, x, p))
    && (forall path <- s.tree :: InputMatches(s, disk, dir, x, path))
    && (uncommitted != [] ==> WholeRepositoryIsClean(s, disk))
  }

  // ---------- functionClean ----------

  /** Source, with the worktreeCache FunctionCommit keeps between the functions of a deploy. */
  class Source {
    const repo: Repository
    const disk: Disk
    var staged: Option<seq<Path>>
    var stagedRead: bool
    var untracked: Option<seq<Untracked>>
    var untrackedRead: bool
    var repositoryClean: Option<bool>
    // How often git was asked for the index, and for what is untracked.
    ghost var indexReads: nat
    ghost var untrackedReads: nat

    /** What is cached is what reading it again would give, and what is not was never read. */
    ghost predicate Valid()
      reads this
    {
      && indexReads == (if stagedRead then 1 else 0) && untrackedReads == (if untrackedRead then 1 else 0)
      && (stagedRead ==> StagedIs(repo, staged))
      && (untrackedRead ==> untracked == repo.git.untracked)
      && (repositoryClean.Some? ==> repositoryClean.value == WholeRepositoryIsClean(repo, disk))
    }

    constructor (repo: Repository, disk: Disk)
      ensures Valid() && this.repo == repo && this.disk == disk
    {
      this.repo, this.disk := repo, disk;
      staged, stagedRead, untracked, untrackedRead, repositoryClean := None, false, None, false, None;
      indexReads, untrackedReads := 0, 0;
    }

    /** The answer of git ls-files -s. */
    method AskIndex() returns (index: Option<seq<IndexRecord>>)
      modifies this`indexReads
      ensures index == repo.git.index && indexReads == old(indexReads) + 1
    {
      index := repo.git.index;
      indexReads := indexReads + 1;
    }

    method AskUntracked() returns (list: Option<seq<DeployCommit.Untracked>>)
      modifies this`untrackedReads
      ensures list == repo.git.untracked && untrackedReads == old(untrackedReads) + 1
    {
      list := repo.git.untracked;
      untrackedReads := untrackedReads + 1;
    }

    /** staged: the list of the index, from git the first time and from the cache after that, a failure too. */
    method Staged() returns (r: Option<seq<Path>>)
      requires Valid()
      modifies this
      ensures Valid() && StagedIs(repo, r) && stagedRead && staged == r && indexReads == 1
    {
      if stagedRead {
        return staged;
      }
      var index := AskIndex();
      if index.None? {
        staged, stagedRead := None, true;
        return None;
      }
      var list := StagedList(repo, index.value);
      staged, stagedRead := Some(list), true;
      r := staged;
    }

    method Untracked() returns (r: Option<seq<DeployCommit.Untracked>>)
      requires Valid()
      modifies this
      ensures Valid() && r == repo.git.untracked && untrackedRead && untracked == r && untrackedReads == 1
    {
      if untrackedRead {
        return untracked;
      }
      r := AskUntracked();
      untracked, untrackedRead := r, true;
    }

    /** untrackedUnder: whether git lists something untracked at or under any of paths. */
    method UntrackedUnder(paths: seq<Path>) returns (v: Verdict)
      requires Valid()
      modifies this
      ensures Valid()
      ensures v == Failed <==> paths != [] && repo.git.untracked.None?
      ensures v == Yes <==> repo.git.untracked.Some? && exists p <- paths :: IsUntracked(repo.git.untracked.value, p)
    {
      if paths == [] {
        return No;
      }
      var list := Untracked();
      if list.None? {
        return Failed;
      }
      for i := 0 to |list.value|
        invariant forall u <- list.value[..i], p <- paths :: !(p <= u.path || (u.isDir && u.path <= p))
      {
        var u := list.value[i];
        assert u in list.value && list.value[..i + 1] == list.value[..i] + [u];
        for j := 0 to |paths|
          invariant forall p <- paths[..j] :: !(p <= u.path || (u.isDir && u.path <= p))
        {
          assert paths[j] in paths && paths[..j + 1] == paths[..j] + [paths[j]];
          if paths[j] <= u.path || (u.isDir && u.path <= paths[j]) {
            return Yes;
          }
        }
        assert paths[..|paths|] == paths;
      }
      assert list.value[..|list.value|] == list.value;
      v := No;
    }

    /** functionClean: whether the upload described by x is the commit; Yes exactly when IsClean. */
    method FunctionClean(x: UploadInputs) returns (v: Verdict)
      requires Valid()
      modifies this
      ensures Valid() && (v == Yes <==> IsClean(repo, disk, x))
    {
      hide Feeds, IsStaged, WholeRepositoryIsClean, IsUntracked, StagedIs, InputChecks, Read, Uncommitted, InRepository,
           InputMatches, Passes;
      if x.dir.None? {
        return No;
      }
      var dir := x.dir.value;
      var placed, read, uncommitted := PlaceInputs(repo, disk, dir, x);
      if !placed {
        return No;
      }
      v := UntrackedUnder(RepositoryPaths(dir, x.roots));
      if v != No {
        return if v == Yes then No else Failed;
      }
      var built := Ignored(repo, uncommitted);
      if built.None? {
        return Failed;
      }
      DistinctSize(uncommitted, built.value);
      if |built.value| < |uncommitted| {
        return No;
      }
      v := FeedsNothingStaged(x, dir);
      if v != Yes {
        return;
      }
      InputChecksPass(repo, disk, dir, x, read);
      v := AllPass(repo, InputChecks(repo, disk, dir, x, read));
      if v != Yes {
        return;
      }
      if |built.value| > 0 {
        var clean := WholeRepositoryClean();
        return if clean then Yes else No;
      }
    }

    /** No submodule, and nothing staged, feeds the function. */
    method FeedsNothingStaged(x: UploadInputs, dir: Path) returns (v: Verdict)
      requires Valid()
      modifies this
      ensures Valid()
      ensures v == Yes <==>
                && (forall path <- repo.gitlinks :: !Feeds(repo, dir, x, path)) && repo.git.index.Some?
                && forall p | IsStaged(repo, repo.git.index.value, p) :: !Feeds(repo, dir, x, p)
    {
      if exists path <- repo.gitlinks :: Feeds(repo, dir, x, path) {
        return No;
      }
      var list := Staged();
      if list.None? {
        return Failed;
      }
      for i := 0 to |list.value|
        invariant forall p <- list.value[..i] :: !Feeds(repo, dir, x, p)
      {
        var p := list.value[i];
        assert p in list.value && list.value[..i + 1] == list.value[..i] + [p];
        if Feeds(repo, dir, x, p) {
          return No;
        }
      }
      assert list.value[..|list.value|] == list.value;
      v := Yes;
    }

    /** wholeRepositoryClean: found out once, and kept whatever the outcome. */
    method WholeRepositoryClean() returns (clean: bool)
      requires Valid()
      modifies this
      ensures Valid() && clean == WholeRepositoryIsClean(repo, disk) && repositoryClean == Some(clean)
      ensures old(repositoryClean.Some?) ==> old(stagedRead) == stagedRead && old(untrackedRead) == untrackedRead
    {
      if repositoryClean.Some? {
        return repositoryClean.value;
      }
      clean := ReadWholeRepository();
      repositoryClean := Some(clean);
    }

    method ReadWholeRepository() returns (clean: bool)
      requires Valid()
      modifies this
      ensures Valid() && clean == WholeRepositoryIsClean(repo, disk)
    {
      if repo.gitlinks != map[] {
        return false;
      }
      var list := Staged();
      if list.None? || list.value != [] {
        assert list.Some? ==> list.value[0] in list.value;
        return false;
      }
      var others := Untracked();
      if others.None? || others.value != [] {
        return false;
      }
      var v := AllPass(repo, TreeChecks(repo, disk));
      clean := v == Yes;
    }
  }

  /**
   The loop that compares each committed file, stopping at the first that cannot match, and then asks for
   the attributes of those whose match depends on them.
   */
  method AllPass(s: Repository, checks: map<Path, Check>) returns (v: Verdict)
    ensures v == Yes <==> forall path <- checks :: Passes(s, checks[path])
  {
    var matches: seq<Match>, todo := [], checks.Keys;
    while todo != {}
      invariant todo <= checks.Keys
      invariant Gathered(checks - todo, matches)
    {
      var path :| path in todo;
      if checks[path].Bad? {
        return No;
      }
      GatherOne(checks - todo, matches, path, checks[path]);
      if checks[path].Depends? {
        matches := matches + [checks[path].m];
      }
      assert checks - (todo - {path}) == (checks - todo)[path := checks[path]];
      todo := todo - {path};
    }
    assert checks - todo == checks;
    GatheredPass(s, checks, matches);
    v := AttributesAllow(s, matches);
  }

  /** functionClean's loops over the files, paths and roots: false when one is not where it is placed. */
  method PlaceInputs(s: Repository, disk: Disk, dir: Path, x: UploadInputs)
    returns (placed: bool, read: map<Path, BlobFile.File>, uncommitted: seq<Path>)
    ensures placed <==> (forall f <- x.files :: x.placed(f.path)) && forall p <- x.paths + x.roots :: x.placed(p)
    ensures placed ==> read == Read(s, dir, x.files) && uncommitted == Uncommitted(s, disk, dir, x)
  {
    hide Read, UncommittedFiles, UncommittedPaths;
    placed, read, uncommitted := PlaceFiles(s, dir, x);
    if !placed {
      return;
    }
    var more;
    placed, more := PlacePaths(s, disk, dir, x);
    uncommitted := uncommitted + more;
    if !placed {
      return;
    }
    placed := PlaceRoots(x);
  }

  method PlaceFiles(s: Repository, dir: Path, x: UploadInputs)
    returns (placed: bool, read: map<Path, BlobFile.File>, uncommitted: seq<Path>)
    ensures placed <==> forall f <- x.files :: x.placed(f.path)
    ensures placed ==> read == Read(s, dir, x.files) && uncommitted == UncommittedFiles(s, dir, x.files)
  {
    placed, read, uncommitted := true, map[], [];
    for i := 0 to |x.files|
      invariant forall f <- x.files[..i] :: x.placed(f.path)
      invariant read == Read(s, dir, x.files[..i]) && uncommitted == UncommittedFiles(s, dir, x.files[..i])
    {
      var f := x.files[i];
      assert f in x.files && x.files[..i + 1] == x.files[..i] + [f] && x.files[..i + 1][..i] == x.files[..i];
      if !x.placed(f.path) {
        return false, read, uncommitted;
      }
      if dir + f.path !in s.tree {
        uncommitted := uncommitted + [dir + f.path];
        continue;
      }
      read := read[dir + f.path := f.file];
    }
    assert x.files[..|x.files|] == x.files;
  }

  method PlacePaths(s: Repository, disk: Disk, dir: Path, x: UploadInputs)
    returns (placed: bool, uncommitted: seq<Path>)
    ensures placed <==> forall p <- x.paths :: x.placed(p)
    ensures placed ==> uncommitted == UncommittedPaths(s, disk, dir, x.paths)
  {
    placed, uncommitted := true, [];
    for i := 0 to |x.paths|
      invariant forall p <- x.paths[..i] :: x.placed(p)
      invariant uncommitted == UncommittedPaths(s, disk, dir, x.paths[..i])
    {
      var p := x.paths[i];
      assert p in x.paths && x.paths[..i + 1] == x.paths[..i] + [p] && x.paths[..i + 1][..i] == x.paths[..i];
      if !x.placed(p) {
        return false, uncommitted;
      }
      if dir + p in s.tree {
        continue;
      }
      if disk.lstat(dir + p).Some? {
        uncommitted := uncommitted + [dir + p];
      }
    }
    assert x.paths[..|x.paths|] == x.paths;
  }

  method PlaceRoots(x: UploadInputs) returns (placed: bool)
    ensures placed <==> forall p <- x.roots :: x.placed(p)
  {
    for i := 0 to |x.roots|
      invariant forall p <- x.roots[..i] :: x.placed(p)
    {
      assert x.roots[i] in x.roots && x.roots[..i + 1] == x.roots[..i] + [x.roots[i]];
      if !x.placed(x.roots[i]) {
        return false;
      }
    }
    assert x.roots[..|x.roots|] == x.roots;
    placed := true;
  }

  function RepositoryPaths(dir: Path, paths: seq<Path>): (r: seq<Path>)
    ensures forall p :: p in r <==> p in InRepository(dir, paths)
    ensures r == [] <==> paths == []
  {
    if paths == [] then []
    else
      assert paths == [paths[0]] + paths[1..];
      [dir + paths[0]] + RepositoryPaths(dir, paths[1..])
  }

  /** ignored: those of paths that git's answer names, over all batches. */
  method Ignored(s: Repository, paths: seq<Path>) returns (r: Option<set<Path>>)
    ensures r.None? <==> s.git.ignores.None? && paths != []
    ensures r.Some? && paths != [] ==> r.value == set p | p in paths && s.git.ignores.value(p)
    ensures paths == [] ==> r == Some({})
  {
    var batches := PathBatches(paths);
    var ignored: set<Path> := {};
    for i := 0 to |batches|
      invariant i > 0 ==> s.git.ignores.Some?
      invariant s.git.ignores.Some? ==> ignored == set p | p in Flatten(batches[..i]) && s.git.ignores.value(p)
      invariant s.git.ignores.None? ==> ignored == {}
    {
      if s.git.ignores.None? {
        FlattenHolds(batches, i);
        return None;
      }
      FlattenTo(batches, i);
      ignored := ignored + set p | p in batches[i] && s.git.ignores.value(p);
    }
    assert batches[..|batches|] == batches;
    if batches != [] {
      FlattenHolds(batches, 0);
    }
    r := Some(ignored);
  }

  lemma {:induction false} FlattenHolds(batches: seq<seq<Path>>, i: nat)
    requires i < |batches| && forall batch <- batches :: FitsCommandLine(batch)
    ensures Flatten(batches) != []
  {
    assert batches[0] in batches;
  }

  /** A set of some elements of a list has as many as the list only when it has all, and the list none twice. */
  lemma {:induction false} DistinctSize(s: seq<Path>, some: set<Path>)
    requires forall p <- some :: p in s
    ensures |some| <= |s|
    ensures |some| == |s| <==> Distinct(s) && forall p <- s :: p in some
  {
    if s == [] {
      assert some == {};
    } else {
      var last, rest := s[|s| - 1], s[..|s| - 1];
      assert s == rest + [last];
      DistinctSize(rest, some - {last});
      if last in some {
        assert |some| == |some - {last}| + 1;
        if forall p <- rest :: p in some - {last} {
          assert last !in rest;
        }
      } else {
        assert some - {last} == some;
      }
      if Distinct(s) && forall p <- s :: p in some {
        assert forall p <- rest :: p in some - {last};
      }
    }
  }

  function InputCheck(s: Repository, disk: Disk, dir: Path, x: UploadInputs, read: map<Path, BlobFile.File>,
                      path: Path): Check
    requires path in s.tree
  {
    var entry := s.tree[path];
    if !Feeds(s, dir, x, path) then
      var over := ShadowedBy(dir, x, path);
      if over.None? || IsReplaced(s, dir, x, over.value) then Fine else Bad
    else if path in read then
      if entry.mode == MODE_SYMLINK then Bad else ContentCheck(path, entry, read[path])
    else if path in InRepository(dir, x.paths) then EntryCheck(disk, path, entry, false)
    else Bad
  }

  /** inputsMatch: what each committed file comes to. */
  function InputChecks(s: Repository, disk: Disk, dir: Path, x: UploadInputs, read: map<Path, BlobFile.File>)
    : (checks: map<Path, Check>)
  {
    map path | path in s.tree :: InputCheck(s, disk, dir, x, read, path)
  }

  lemma InputCheckPasses(s: Repository, disk: Disk, dir: Path, x: UploadInputs, path: Path)
    requires path in s.tree
    ensures Passes(s, InputCheck(s, disk, dir, x, Read(s, dir, x.files), path)) <==> InputMatches(s, disk, dir, x, path)
  {
  }

  lemma InputChecksPass(s: Repository, disk: Disk, dir: Path, x: UploadInputs, read: map<Path, BlobFile.File>)
    requires read == Read(s, dir, x.files)
    ensures var checks := InputChecks(s, disk, dir, x, read);
            (forall path <- checks :: Passes(s, checks[path]))
            <==> forall path <- s.tree :: InputMatches(s, disk, dir, x, path)
  {
    hide InputCheck, InputMatches, Passes, Read;
    var checks := InputChecks(s, disk, dir, x, read);
    forall path | path in s.tree
      ensures path in checks && (Passes(s, checks[path]) <==> InputMatches(s, disk, dir, x, path))
    {
      InputCheckPasses(s, disk, dir, x, path);
    }
  }

  /** The loop of staged over the index, and then over what the commit holds. */
  method StagedList(s: Repository, index: seq<IndexRecord>) returns (staged: seq<Path>)
    ensures forall p :: p in staged <==> IsStaged(s, index, p)
  {
    staged := [];
    var seen: set<Path> := {};
    for i := 0 to |index|
      invariant seen == Listed(index[..i])
      invariant forall p :: p in staged <==> exists rec :: rec in index[..i] && rec.path == p && !AsCommitted(s, rec)
    {
      var rec := index[i];
      assert index[..i + 1] == index[..i] + [rec];
      assert forall r :: r in index[..i + 1] <==> r in index[..i] || r == rec;
      seen := seen + {rec.path};
      if AsCommitted(s, rec) {
        continue;
      }
      staged := staged + [rec.path];
    }
    assert index[..|index|] == index;
    var missing := Unlisted(s.tree.Keys + s.gitlinks.Keys, seen);
    staged := staged + missing;
  }

  method Unlisted(committed: set<Path>, seen: set<Path>) returns (missing: seq<Path>)
    ensures forall p :: p in missing <==> p in committed && p !in seen
  {
    missing := [];
    var todo := committed;
    while todo != {}
      invariant todo <= committed
      invariant forall p :: p in missing <==> p in committed - todo && p !in seen
    {
      var p :| p in todo;
      todo := todo - {p};
      if p !in seen {
        missing := missing + [p];
      }
    }
  }

  /** r lists exactly the staged paths, None when the index cannot be read. */
  ghost predicate StagedIs(s: Repository, r: Option<seq<Path>>) {
    if s.git.index.None? then r.None?
    else r.Some? && forall p :: p in r.value <==> IsStaged(s, s.git.index.value, p)
  }
}
