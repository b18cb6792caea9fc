/**
 What clean comes to, told from the commit, from what git and the disk answer and from the upload's inputs alone
 (FunctionCommit in internal/deploycommit/function.go).
 */
module CleanMeaning {
  import opened Collections
  import opened Wrappers
  import opened Worktree
  import BlobFile
  import opened DeployCommit
  import opened FunctionClean

  // ---------- The index ----------

  /** The records that the index has at p are those of what the commit holds there. */
  ghost predicate IndexHolds(s: Repository, p: Path) {
    && s.git.index.Some?
    && (set rec | rec in s.git.index.value && rec.path == p)
       == if p in s.tree then {IndexRecord(s.tree[p].mode, s.tree[p].blob, "0", p)}
          else if p in s.gitlinks then {IndexRecord("160000", s.gitlinks[p], "0", p)} else {}
  }

  // ---------- What feeds the function ----------

  predicate IsUpload(dir: Path, x: UploadInputs, path: Path) {
    exists f :: f in x.files && dir + f.path == path
  }

  predicate IsRead(dir: Path, x: UploadInputs, path: Path) {
    exists p :: p in x.paths && dir + p == path
  }

  /** A path feeds the function: a committed upload, a path that is read beside them, or one packaging would read. */
  predicate Fed(s: Repository, dir: Path, x: UploadInputs, path: Path) {
    || (path in s.tree && IsUpload(dir, x, path)) || IsRead(dir, x, path)
    || (dir <= path && x.feeds(if path == dir then path else path[|dir|..]))
  }

  lemma {:induction false} ReadMeans(s: Repository, dir: Path, files: seq<InputFile>, path: Path)
    ensures path in Read(s, dir, files) <==> path in s.tree && exists f :: f in files && dir + f.path == path
    ensures path in Read(s, dir, files) ==>
              exists i | 0 <= i < |files| ::
                && dir + files[i].path == path && Read(s, dir, files)[path] == files[i].file
                && forall j | i < j < |files| :: dir + files[j].path != path
  {
    if files != [] {
      var n := |files| - 1;
      ReadMeans(s, dir, files[..n], path);
      assert files == files[..n] + [files[n]];
      if path in Read(s, dir, files) && dir + files[n].path != path {
        var i :| 0 <= i < n && dir + files[..n][i].path == path && Read(s, dir, files[..n])[path] == files[..n][i].file
                 && forall j | i < j < n :: dir + files[..n][j].path != path;
        assert files[i] == files[..n][i];
        forall j | i < j < |files|
          ensures dir + files[j].path != path
        {
          assert j < n ==> files[j] == files[..n][j];
        }
      }
    }
  }

  lemma FeedsMeans(s: Repository, dir: Path, x: UploadInputs, path: Path)
    ensures Feeds(s, dir, x, path) <==> Fed(s, dir, x, path)
  {
    ReadMeans(s, dir, x.files, path);
    hide Read;
  }

  // ---------- What the commit lacks ----------

  /** Every two files the commit lacks differ in their paths. */
  predicate LackedOnce(s: Repository, dir: Path, files: seq<InputFile>) {
    forall i, j | 0 <= i < j < |files| && dir + files[j].path !in s.tree ::
      dir + files[i].path != dir + files[j].path
  }

  lemma DistinctSnoc(s: seq<Path>, p: Path)
    ensures Distinct(s + [p]) <==> Distinct(s) && p !in s
  {
    var t := s + [p];
    if Distinct(t) {
      assert forall i | 0 <= i < |s| :: t[i] == s[i];
      assert t[|s|] == p;
    }
  }

  lemma {:induction false} FilesMean(s: Repository, dir: Path, files: seq<InputFile>)
    ensures forall q ::
              q in UncommittedFiles(s, dir, files) <==> q !in s.tree && exists f :: f in files && dir + f.path == q
  {
    if files != [] {
      var n := |files| - 1;
      FilesMean(s, dir, files[..n]);
      assert files == files[..n] + [files[n]];
    }
  }

  lemma LackedSnoc(s: Repository, dir: Path, files: seq<InputFile>)
    requires files != []
    ensures var n := |files| - 1;
            LackedOnce(s, dir, files)
            <==> && LackedOnce(s, dir, files[..n])
                 && (dir + files[n].path in s.tree || forall f <- files[..n] :: dir + f.path != dir + files[n].path)
  {
    var n := |files| - 1;
    forall i | 0 <= i < n
      ensures files[i] == files[..n][i] && files[i] in files[..n]
    {
    }
  }

  lemma FilesSnoc(s: Repository, dir: Path, files: seq<InputFile>)
    requires files != []
    ensures var n := |files| - 1;
            var before := UncommittedFiles(s, dir, files[..n]);
            UncommittedFiles(s, dir, files)
            == if dir + files[n].path in s.tree then before else before + [dir + files[n].path]
  {
  }

  lemma {:induction false} FilesOnce(s: Repository, dir: Path, files: seq<InputFile>)
    ensures Distinct(UncommittedFiles(s, dir, files)) <==> LackedOnce(s, dir, files)
  {
    if files != [] {
      hide Distinct, UncommittedFiles, LackedOnce;
      var n := |files| - 1;
      FilesOnce(s, dir, files[..n]);
      FilesMean(s, dir, files[..n]);
      LackedSnoc(s, dir, files);
      FilesSnoc(s, dir, files);
      DistinctSnoc(UncommittedFiles(s, dir, files[..n]), dir + files[n].path);
    }
  }

  /** Every two of the other paths that are on disk without the commit having them differ. */
  predicate ReadOnce(s: Repository, disk: Disk, dir: Path, paths: seq<Path>) {
    forall i, j | 0 <= i < j < |paths| && dir + paths[j] !in s.tree && disk.lstat(dir + paths[j]).Some? ::
      dir + paths[i] != dir + paths[j]
  }

  lemma {:induction false} PathsMean(s: Repository, disk: Disk, dir: Path, paths: seq<Path>)
    ensures forall q ::
              q in UncommittedPaths(s, disk, dir, paths)
              <==> q !in s.tree && disk.lstat(q).Some? && exists p :: p in paths && dir + p == q
  {
    if paths != [] {
      var n := |paths| - 1;
      PathsMean(s, disk, dir, paths[..n]);
      assert paths == paths[..n] + [paths[n]];
    }
  }

  lemma PathsSnoc(s: Repository, disk: Disk, dir: Path, paths: seq<Path>)
    requires paths != []
    ensures var last, before := dir + paths[|paths| - 1], UncommittedPaths(s, disk, dir, paths[..|paths| - 1]);
            UncommittedPaths(s, disk, dir, paths)
            == if last in s.tree || disk.lstat(last).None? then before else before + [last]
  {
  }

  lemma ReadSnoc(s: Repository, disk: Disk, dir: Path, paths: seq<Path>)
    requires paths != []
    ensures var n := |paths| - 1;
            ReadOnce(s, disk, dir, paths)
            <==> && ReadOnce(s, disk, dir, paths[..n])
                 && (dir + paths[n] in s.tree || disk.lstat(dir + paths[n]).None?
                     || forall p <- paths[..n] :: dir + p != dir + paths[n])
  {
    forall i | 0 <= i < |paths| - 1
      ensures paths[i] == paths[..|paths| - 1][i] && paths[i] in paths[..|paths| - 1]
    {
    }
  }

  lemma {:induction false} PathsOnce(s: Repository, disk: Disk, dir: Path, paths: seq<Path>)
    ensures Distinct(UncommittedPaths(s, disk, dir, paths)) <==> ReadOnce(s, disk, dir, paths)
  {
    if paths != [] {
      hide Distinct, UncommittedPaths, ReadOnce;
      var n := |paths| - 1;
      PathsOnce(s, disk, dir, paths[..n]);
      PathsMean(s, disk, dir, paths[..n]);
      PathsSnoc(s, disk, dir, paths);
      ReadSnoc(s, disk, dir, paths);
      DistinctSnoc(UncommittedPaths(s, disk, dir, paths[..n]), dir + paths[n]);
    }
  }

  lemma DistinctBoth(a: seq<Path>, b: seq<Path>)
    ensures Distinct(a + b) <==> Distinct(a) && Distinct(b) && forall p <- b :: p !in a
  {
    var t, n := a + b, |a|;
    if Distinct(t) {
      forall i, j | 0 <= i < n && 0 <= j < |b|
        ensures a[i] != b[j]
      {
        assert t[i] == a[i] && t[n + j] == b[j];
      }
      forall i, j | 0 <= i < j < |b|
        ensures b[i] != b[j]
      {
        assert t[n + i] == b[i] && t[n + j] == b[j];
      }
      assert forall i | 0 <= i < n :: t[i] == a[i];
    } else {
      var i, j :| 0 <= i < j < |t| && t[i] == t[j];
      assert t[i] == if i < n then a[i] else b[i - n];
      assert t[j] == if j < n then a[j] else b[j - n];
      assert j >= n ==> b[j - n] in b;
    }
  }

  /** An upload, or another path that is there, that the commit lacks. */
  predicate IsLacked(s: Repository, disk: Disk, dir: Path, x: UploadInputs, path: Path) {
    path !in s.tree && (IsUpload(dir, x, path) || (IsRead(dir, x, path) && disk.lstat(path).Some?))
  }

  lemma UncommittedMeans(s: Repository, disk: Disk, dir: Path, x: UploadInputs)
    ensures forall q :: q in Uncommitted(s, disk, dir, x) <==> IsLacked(s, disk, dir, x, q)
    ensures Distinct(Uncommitted(s, disk, dir, x))
       <==> && LackedOnce(s, dir, x.files) && ReadOnce(s, disk, dir, x.paths)
            && forall q | IsUpload(dir, x, q) && IsRead(dir, x, q) && disk.lstat(q).Some? :: q in s.tree
  {
    hide Distinct, UncommittedFiles, UncommittedPaths, LackedOnce, ReadOnce;
    FilesMean(s, dir, x.files);
    FilesOnce(s, dir, x.files);
    PathsMean(s, disk, dir, x.paths);
    PathsOnce(s, disk, dir, x.paths);
    DistinctBoth(UncommittedFiles(s, dir, x.files), UncommittedPaths(s, disk, dir, x.paths));
  }

  // ---------- The files ----------

  /** What is on disk at path is what the commit holds there. */
  ghost predicate DiskHolds(s: Repository, disk: Disk, path: Path, entry: Entry, mode: bool) {
    match disk.lstat(path)
    case None => false
    case Some(Dir) => false
    case Some(Special) => false
    case Some(Link(target)) => entry.mode == "120000" && BlobFile.BlobID(disk.sha1, target) == entry.blob
    case Some(File(content, executable)) =>
      && entry.mode != "120000" && (mode ==> (executable <==> entry.mode == "100755"))
      && HasContent(s, path, entry, BlobFile.Recorded(disk.sha1, disk.sha256, content))
  }

  lemma DiskMeans(s: Repository, disk: Disk, path: Path, entry: Entry, mode: bool)
    ensures EntryClean(s, disk, path, entry, mode) <==> DiskHolds(s, disk, path, entry, mode)
  {
    hide HasContent, BlobFile.Recorded, BlobFile.BlobID;
  }

  /** The last of the uploads from path has the content that the commit holds there. */
  ghost predicate UploadHolds(s: Repository, dir: Path, x: UploadInputs, path: Path, entry: Entry) {
    exists i | 0 <= i < |x.files| ::
      && dir + x.files[i].path == path && HasContent(s, path, entry, x.files[i].file)
      && forall j | i < j < |x.files| :: dir + x.files[j].path != path
  }

  /**
   A committed file that feeds the function was uploaded, as no symlink and with the committed content, or is read
   beside the uploads and on disk as committed. One that something stands in for does not feed it, and the commit or the
   upload has a file of what stands there.
   */
  ghost predicate InputHolds(s: Repository, disk: Disk, dir: Path, x: UploadInputs, path: Path)
    requires path in s.tree
  {
    if IsUpload(dir, x, path) then s.tree[path].mode != "120000" && UploadHolds(s, dir, x, path, s.tree[path])
    else if IsRead(dir, x, path) then DiskHolds(s, disk, path, s.tree[path], false)
    else if !(dir <= path) then true
    else
      var p := if path == dir then path else path[|dir|..];
      && !x.feeds(p)
      && (x.shadowedBy(p).Some? ==>
            exists q :: (q in s.tree || IsUpload(dir, x, q)) && dir + x.shadowedBy(p).value <= q)
  }

  lemma UploadMeans(s: Repository, dir: Path, x: UploadInputs, path: Path, entry: Entry)
    requires path in Read(s, dir, x.files)
    ensures UploadHolds(s, dir, x, path, entry) <==> HasContent(s, path, entry, Read(s, dir, x.files)[path])
  {
    ReadMeans(s, dir, x.files, path);
    hide HasContent, Read;
    var i :| 0 <= i < |x.files| && dir + x.files[i].path == path && Read(s, dir, x.files)[path] == x.files[i].file
             && forall j | i < j < |x.files| :: dir + x.files[j].path != path;
  }

  lemma InputMeans(s: Repository, disk: Disk, dir: Path, x: UploadInputs, path: Path)
    requires path in s.tree
    ensures InputMatches(s, disk, dir, x, path) <==> InputHolds(s, disk, dir, x, path)
  {
    hide HasContent, Read, EntryClean, DiskHolds, UploadHolds;
    FeedsMeans(s, dir, x, path);
    ReadMeans(s, dir, x.files, path);
    DiskMeans(s, disk, path, s.tree[path], false);
    if path in Read(s, dir, x.files) {
      UploadMeans(s, dir, x, path, s.tree[path]);
    }
    assert forall u :: u in Uploaded(dir, x.files) <==> IsUpload(dir, x, u);
  }

  // ---------- The whole repository ----------

  /** Nothing of the repository is other than the commit: no submodule, the index, the disk and what is untracked. */
  ghost predicate RepositoryIsCommit(s: Repository, disk: Disk) {
    && s.gitlinks == map[] && s.git.untracked == Some([])
    && (forall p :: IndexHolds(s, p))
    && forall path <- s.tree :: DiskHolds(s, disk, path, s.tree[path], s.fileMode)
  }

  lemma IndexMeans(s: Repository, p: Path)
    requires s.tree.Keys !! s.gitlinks.Keys && s.git.index.Some?
    ensures IndexHolds(s, p) <==> !IsStaged(s, s.git.index.value, p)
  {
    StagedMeans(s, s.git.index.value, p);
    hide IsStaged;
  }

  lemma RepositoryMeans(s: Repository, disk: Disk)
    requires s.tree.Keys !! s.gitlinks.Keys
    ensures WholeRepositoryIsClean(s, disk) <==> RepositoryIsCommit(s, disk)
  {
    hide IsStaged, IndexHolds, EntryClean, DiskHolds;
    forall p
      ensures IndexHolds(s, p) <==> s.git.index.Some? && !IsStaged(s, s.git.index.value, p)
    {
      if s.git.index.Some? {
        IndexMeans(s, p);
      } else {
        NoIndex(s, p);
      }
    }
    forall path | path in s.tree
      ensures EntryClean(s, disk, path, s.tree[path], s.fileMode)
         <==> DiskHolds(s, disk, path, s.tree[path], s.fileMode)
    {
      DiskMeans(s, disk, path, s.tree[path], s.fileMode);
    }
    assert IndexHolds(s, []) ==> s.git.index.Some?;
  }

  lemma NoIndex(s: Repository, p: Path)
    requires s.git.index.None?
    ensures !IndexHolds(s, p)
  {
  }

  // ---------- Clean ----------

  /** Something untracked is at path or under it, or is a directory around it. */
  predicate UntrackedAround(untracked: seq<Untracked>, path: Path) {
    exists u :: u in untracked && (path <= u.path || (u.isDir && u.path <= path))
  }

  /** Every file and path that packaging read is where its name says. */
  predicate AllPlaced(x: UploadInputs) {
    && (forall f <- x.files :: x.placed(f.path))
    && (forall p <- x.paths :: x.placed(p)) && (forall p <- x.roots :: x.placed(p))
  }

  /** git can be asked about a root if there is one, and has nothing untracked around any. */
  predicate RootsTracked(s: Repository, dir: Path, x: UploadInputs) {
    forall p <- x.roots :: s.git.untracked.Some? && !UntrackedAround(s.git.untracked.value, dir + p)
  }

  lemma RootsMean(s: Repository, dir: Path, x: UploadInputs)
    ensures RootsTracked(s, dir, x)
       <==> (x.roots != [] ==>
               s.git.untracked.Some?
               && forall p <- InRepository(dir, x.roots) :: !IsUntracked(s.git.untracked.value, p))
  {
    assert x.roots != [] ==> x.roots[0] in x.roots;
    if s.git.untracked.Some? {
      forall p | p in x.roots
        ensures dir + p in InRepository(dir, x.roots)
        ensures IsUntracked(s.git.untracked.value, dir + p) <==> UntrackedAround(s.git.untracked.value, dir + p)
      {
      }
    }
  }

  /**
   A function is clean if and only if its inputs are where their names say; nothing at, in or around its roots is
   untracked; everything that feeds it is in the index as in the commit, and no submodule feeds it; each committed input
   is as the commit has it; and what was read though the commit lacks it was read once and is ignored by git, in a
   repository that has nothing else than the commit.
   */
  lemma CleanExactlyWhen(s: Repository, disk: Disk, x: UploadInputs)
    requires s.tree.Keys !! s.gitlinks.Keys
    ensures IsClean(s, disk, x)
       <==> x.dir.Some? &&
            var dir := x.dir.value;
            && AllPlaced(x) && RootsTracked(s, dir, x)
            && s.git.index.Some? && (forall p | Fed(s, dir, x, p) :: IndexHolds(s, p) && p !in s.gitlinks)
            && (forall path <- s.tree :: InputHolds(s, disk, dir, x, path))
            && LackedOnce(s, dir, x.files) && ReadOnce(s, disk, dir, x.paths)
            && (forall q | IsUpload(dir, x, q) && IsRead(dir, x, q) && disk.lstat(q).Some? :: q in s.tree)
            && forall q | IsLacked(s, disk, dir, x, q) ::
                 s.git.ignores.Some? && s.git.ignores.value(q) && RepositoryIsCommit(s, disk)
  {
    if x.dir.Some? {
      hide IsStaged, IndexHolds, WholeRepositoryIsClean, RepositoryIsCommit, Uncommitted, Feeds, Fed, InputMatches,
           InputHolds, RootsTracked, IsUntracked, InRepository, IsLacked, Distinct, LackedOnce, ReadOnce, IsUpload,
           IsRead;
      var dir := x.dir.value;
      RootsMean(s, dir, x);
      LackedMean(s, disk, dir, x);
      FedMean(s, dir, x);
      InputsMean(s, disk, dir, x);
    }
  }

  lemma LackedMean(s: Repository, disk: Disk, dir: Path, x: UploadInputs)
    requires s.tree.Keys !! s.gitlinks.Keys
    ensures var uncommitted := Uncommitted(s, disk, dir, x);
            && Distinct(uncommitted)
            && (uncommitted != [] ==> s.git.ignores.Some? && forall p <- uncommitted :: s.git.ignores.value(p))
            && (uncommitted != [] ==> WholeRepositoryIsClean(s, disk))
            <==> && LackedOnce(s, dir, x.files) && ReadOnce(s, disk, dir, x.paths)
                 && (forall q | IsUpload(dir, x, q) && IsRead(dir, x, q) && disk.lstat(q).Some? :: q in s.tree)
                 && forall q | IsLacked(s, disk, dir, x, q) ::
                      s.git.ignores.Some? && s.git.ignores.value(q) && RepositoryIsCommit(s, disk)
  {
    hide WholeRepositoryIsClean, RepositoryIsCommit, Uncommitted, IsLacked, Distinct, LackedOnce, ReadOnce, IsUpload,
         IsRead;
    UncommittedMeans(s, disk, dir, x);
    RepositoryMeans(s, disk);
    var uncommitted := Uncommitted(s, disk, dir, x);
    assert uncommitted != [] ==> uncommitted[0] in uncommitted;
  }

  lemma FedMean(s: Repository, dir: Path, x: UploadInputs)
    requires s.tree.Keys !! s.gitlinks.Keys
    ensures (forall path <- s.gitlinks :: !Feeds(s, dir, x, path)) <==> forall p | Fed(s, dir, x, p) :: p !in s.gitlinks
    ensures s.git.index.Some? ==>
              ((forall p | IsStaged(s, s.git.index.value, p) :: !Feeds(s, dir, x, p))
               <==> forall p | Fed(s, dir, x, p) :: IndexHolds(s, p))
  {
    hide IsStaged, IndexHolds, Feeds, Fed;
    forall p
      ensures Feeds(s, dir, x, p) <==> Fed(s, dir, x, p)
      ensures s.git.index.Some? ==> (IndexHolds(s, p) <==> !IsStaged(s, s.git.index.value, p))
    {
      FeedsMeans(s, dir, x, p);
      if s.git.index.Some? {
        IndexMeans(s, p);
      }
    }
  }

  lemma InputsMean(s: Repository, disk: Disk, dir: Path, x: UploadInputs)
    ensures (forall path <- s.tree :: InputMatches(s, disk, dir, x, path))
       <==> forall path <- s.tree :: InputHolds(s, disk, dir, x, path)
  {
    hide InputMatches, InputHolds;
    forall path | path in s.tree
      ensures InputMatches(s, disk, dir, x, path) <==> InputHolds(s, disk, dir, x, path)
    {
      InputMeans(s, disk, dir, x, path);
    }
  }

  /**
   So at every path that feeds a clean function, uploaded from the commit, read beside the uploads or asked for by
   packaging, the index has what the commit does and nothing else, and no submodule.
   */
  lemma CleanIndexIsTheCommit(s: Repository, disk: Disk, x: UploadInputs, dir: Path, p: Path)
    requires s.tree.Keys !! s.gitlinks.Keys && IsClean(s, disk, x) && x.dir == Some(dir)
    requires || (dir + p in s.tree && p in set f | f in x.files :: f.path)
             || p in x.paths || (p != [] && x.feeds(p))
    ensures s.git.index.Some? && dir + p !in s.gitlinks
    ensures (set rec | rec in s.git.index.value && rec.path == dir + p)
            == if dir + p !in s.tree then {}
               else {IndexRecord(s.tree[dir + p].mode, s.tree[dir + p].blob, "0", dir + p)}
  {
    CleanExactlyWhen(s, disk, x);
    hide IsClean, InputHolds, RootsTracked, RepositoryIsCommit, LackedOnce, ReadOnce, IsLacked, AllPlaced;
    assert (dir + p)[|dir|..] == p && (p != [] ==> dir + p != dir);
    assert Fed(s, dir, x, dir + p) by {
      if f :| f in x.files && f.path == p {
        assert dir + f.path == dir + p;
      }
    }
    assert IndexHolds(s, dir + p);
  }
}
