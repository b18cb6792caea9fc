/**
 What reporting a commit for a clean function promises: packaging a checkout of the commit picks the same
 project file for every archive path as packaging the worktree did, each with the commit's content.
 */
module Soundness {
  import opened Wrappers
  import opened Worktree
  import BlobFile
  import opened DirectoryReader
  import opened Scanner
  import opened Inputs
  import opened Packager
  import opened Prediction
  import opened PredictionExact
  import opened DeployCommit
  import opened FunctionClean

  // ---------- A checkout of the commit ----------

  /** No file or submodule of the commit lies under another. */
  ghost predicate CommitValid(s: Repository) {
    var all := s.tree.Keys + s.gitlinks.Keys;
    [] !in all && (forall p, q | p in all && q in all :: !(p < q)) && s.tree.Keys !! s.gitlinks.Keys
  }

  /** What the commit holds under dir: files, symlinks, and submodules, which a checkout leaves empty. */
  function CommitLeaves(s: Repository, dir: Path): map<Path, Node> {
    map r | r in UnderDirectory(dir, s.tree.Keys + s.gitlinks.Keys) ::
      if dir + r in s.tree then
        if s.tree[dir + r].mode == MODE_SYMLINK then Link([]) else File([], s.tree[dir + r].mode == MODE_EXECUTABLE)
      else Dir
  }

  function UnderDirectory(dir: Path, paths: set<Path>): set<Path> {
    set p | p in paths && dir < p :: p[|dir|..]
  }

  /** The project directory in a checkout of the commit; what its files hold does not matter to packaging. */
  function Checkout(s: Repository, dir: Path): Tree {
    Grown(CommitLeaves(s, dir))
  }

  lemma CheckoutIsCommit(s: Repository, dir: Path)
    requires CommitValid(s)
    ensures Worktree.Valid(Checkout(s, dir))
    ensures forall p | p != [] ::
              IsFile(Checkout(s, dir), p) <==> dir + p in s.tree && s.tree[dir + p].mode != MODE_SYMLINK
    ensures !IsFile(Checkout(s, dir), [])
  {
    var leaves := CommitLeaves(s, dir);
    forall p
      ensures p in leaves <==> p != [] && dir + p in s.tree.Keys + s.gitlinks.Keys
    {
      assert (dir + p)[|dir|..] == p;
      if p in leaves {
        var q :| q in s.tree.Keys + s.gitlinks.Keys && dir < q && q[|dir|..] == p;
        assert q == dir + p;
      }
    }
    forall p, q | p in leaves && q in leaves
      ensures !(p < q)
    {
      assert p < q ==> dir + p < dir + q;
    }
    GrownIsValid(leaves);
  }

  // ---------- The upload ----------

  /** x describes the upload PackageSource made of project y, whose directory is dir in the repository. */
  ghost predicate Describes(x: UploadInputs, y: Project, dir: Path, disk: Disk)
    requires y.Valid()
  {
    && x.dir == Some(dir)
    && (set f | f in x.files :: f.path) == y.Selection().Values
    && (forall f <- x.files :: IsFile(y.tree, f.path)
                               && f.file == BlobFile.Recorded(disk.sha1, disk.sha256, y.tree[f.path].content))
    && (forall p :: x.feeds(p) <==> InputPath(y.Rules(), y.Selection(), p).feeds)
    && (forall p :: x.shadowedBy(p) == InputPath(y.Rules(), y.Selection(), p).shadowedBy)
    && (forall p <- x.paths :: x.placed(p) ==> disk.lstat(dir + p) == (if p in y.tree then Some(y.tree[p]) else None))
  }

  function RecordedFiles(disk: Disk, files: seq<PackedFile>): seq<InputFile> {
    seq(|files|, i requires 0 <= i < |files| =>
      InputFile(files[i].path, BlobFile.Recorded(disk.sha1, disk.sha256, files[i].content)))
  }

  function LibraryPaths(libs: seq<Library>): seq<Path> {
    seq(|libs|, i requires 0 <= i < |libs| => libs[i].path)
  }

  /** The inputs that PackageSource and then SetCommit make of a package; manifests are the paths SetCommit adds. */
  function InputsOf(packed: PackageResult, m: Matcher, info: SourceInfo, disk: Disk, dir: Path, manifests: seq<Path>,
                    placed: Path -> bool): UploadInputs
    requires packed.Packed? && info.path != []
  {
    var rules := RulesFor(m, info, packed.libs);
    UploadInputs(Some(dir), RecordedFiles(disk, packed.files), p => InputPath(rules, packed.sources, p).feeds,
                 p => InputPath(rules, packed.sources, p).shadowedBy,
                 [if info.isDir then info.Dir() else info.path] + LibraryPaths(packed.libs),
                 [[".gitignore"]] + manifests, placed)
  }

  /** So what PackageSource answers describes the upload it made. */
  lemma PackagingDescribes(y: Project, packed: PackageResult, disk: Disk, dir: Path, manifests: seq<Path>,
                           placed: Path -> bool)
    requires y.Valid() && Packages(y.tree, y.matcher, y.info, y.libs, packed) && packed.Packed?
    requires forall p :: placed(p) ==> disk.lstat(dir + p) == if p in y.tree then Some(y.tree[p]) else None
    ensures Describes(InputsOf(packed, y.matcher, y.info, disk, dir, manifests, placed), y, dir, disk)
  {
    hide BlobFile.Recorded, InputPath, Selection, Worktree.Valid, Lists, LibrariesByName, RulesFor, Packageable;
    var files := RecordedFiles(disk, packed.files);
    forall f | f in files
      ensures IsFile(y.tree, f.path) && f.file == BlobFile.Recorded(disk.sha1, disk.sha256, y.tree[f.path].content)
      ensures f.path in y.Selection().Values
    {
      var i :| 0 <= i < |files| && files[i] == f;
      assert packed.files[i] in packed.files;
    }
    forall p | p in y.Selection().Values
      ensures exists f :: f in files && f.path == p
    {
      var g :| g in packed.files && g.path == p;
      var i :| 0 <= i < |files| && packed.files[i] == g;
      assert files[i] in files;
    }
  }

  /** The project a checkout of the commit holds, with any function in it and any ignore rules. */
  ghost predicate CheckedOut(z: Project, s: Repository, dir: Path) {
    z.Valid() && z.tree == Checkout(s, dir)
  }

  /** The same function, and the same ignore rules. */
  ghost predicate SameRules(y: Project, z: Project) {
    z.info == y.info && z.matcher == y.matcher
  }

  /** The library of p is not one in volcano/functions. */
  predicate Elsewhere(p: Path) {
    SharedLibrary(p).Some? && !(FUNCTIONS < SharedLibrary(p).value.root)
  }

  /** In a checkout no library that has a committed upload is replaced. */
  ghost predicate NoneReplaced(s: Repository, y: Project, z: Project, dir: Path)
    requires y.Valid() && z.Valid()
  {
    forall p <- y.Selection().Values | dir + p in s.tree && Elsewhere(p) :: !Replaced(z.Rules(), SharedLibrary(p).value)
  }

  /** A checkout packages the committed uploads where they are, and nothing at a path where nothing is uploaded. */
  ghost predicate CommittedAgree(s: Repository, y: Project, z: Project, dir: Path)
    requires y.Valid() && z.Valid()
  {
    && z.Selection().Keys <= y.Selection().Keys
    && forall a <- y.Selection() | dir + y.Selection()[a] in s.tree ::
         a in z.Selection() && z.Selection()[a] == y.Selection()[a]
  }

  /** A library replaced in the worktree but not in a checkout has no committed file the archive would gain. */
  ghost predicate NoneRestored(y: Project, z: Project)
    requires y.Valid() && z.Valid()
  {
    forall p, a, k | IsFile(z.tree, p) && Elsewhere(p) && Replaced(y.Rules(), SharedLibrary(p).value)
                     && Role(a, k) in LibraryRole(z.Rules(), p) :: a in y.Selection()
  }

  /** A file has some role at a before priority k. */
  ghost predicate Beats(r: Rules, p: Path, a: Path, k: nat) {
    exists j: nat :: j < k && Plays(r, p, a, j)
  }

  /** Something is uploaded at a, and where that is committed its place is not lost to q, which has priority k there. */
  ghost predicate Stays(s: Repository, y: Project, z: Project, dir: Path, q: Path, a: Path, k: nat)
    requires y.Valid() && z.Valid()
  {
    && a in y.Selection()
    && (dir + y.Selection()[a] in s.tree && y.Selection()[a] != q ==> Beats(z.Rules(), y.Selection()[a], a, k))
  }

  /**
   No committed file gains a role by the rules of the checkout in which it takes a committed upload's place, or a place
   where nothing is uploaded.
   */
  ghost predicate NoneGained(s: Repository, y: Project, z: Project, dir: Path)
    requires y.Valid() && z.Valid()
  {
    forall q, a, k | IsFile(z.tree, q) && Plays(z.Rules(), q, a, k) && !Plays(y.Rules(), q, a, k) ::
      Stays(s, y, z, dir, q, a, k)
  }

  /** All roles of p put it at one archive path. */
  ghost predicate OnePlace(r: Rules, p: Path) {
    forall a, b, k, l | Plays(r, p, a, k) && Plays(r, p, b, l) :: a == b
  }

  /** p, and the file uploaded where its best role puts it, have one place each. */
  ghost predicate Covered(y: Project, p: Path)
    requires y.Valid()
  {
    var r, best := y.Rules(), Best(Roles(y.Rules(), p));
    && OnePlace(r, p)
    && (best.Some? && best.value.archive in y.Selection() ==> OnePlace(r, y.Selection()[best.value.archive]))
  }

  /** A file of the commit that the worktree lacks, and that is at two places or lost its own to a file at two. */
  ghost predicate Uncovered(y: Project, z: Project, q: Path)
    requires y.Valid() && z.Valid()
  {
    IsFile(z.tree, q) && !IsFile(y.tree, q) && !Covered(y, q)
  }

  /** No such file takes a committed upload's place, or a place where nothing is uploaded. */
  ghost predicate NoneUncovered(s: Repository, y: Project, z: Project, dir: Path)
    requires y.Valid() && z.Valid()
  {
    forall q, a, k | Uncovered(y, z, q) && Plays(y.Rules(), q, a, k) && Plays(z.Rules(), q, a, k) ::
      Stays(s, y, z, dir, q, a, k)
  }

  /** No committed upload loses the role that gave it its place, or it has the place by another role still. */
  ghost predicate NoneLost(s: Repository, y: Project, z: Project, dir: Path)
    requires y.Valid() && z.Valid()
  {
    forall a, k | a in y.Selection() && dir + y.Selection()[a] in s.tree
                  && Wins(y.tree, y.Rules(), y.Selection()[a], a, k) && !Plays(z.Rules(), y.Selection()[a], a, k) ::
      exists j: nat :: Wins(z.tree, z.Rules(), y.Selection()[a], a, j)
  }

  // ---------- What clean says of each file ----------

  lemma {:induction false} ReadAt(s: Repository, dir: Path, files: seq<InputFile>, p: Path)
    requires dir + p in s.tree
    ensures var read := Read(s, dir, files);
            && (dir + p in read <==> exists f :: f in files && f.path == p)
            && (dir + p in read ==> InputFile(p, read[dir + p]) in files)
  {
    if files != [] {
      var last, rest := files[|files| - 1], files[..|files| - 1];
      ReadAt(s, dir, rest, p);
      assert files == rest + [last];
      if dir + last.path == dir + p {
        assert last.path == (dir + last.path)[|dir|..] == p;
      }
    }
  }

  lemma {:induction false} NothingUncommitted(s: Repository, dir: Path, files: seq<InputFile>)
    requires UncommittedFiles(s, dir, files) == []
    ensures forall f <- files :: dir + f.path in s.tree
  {
    if files != [] {
      NothingUncommitted(s, dir, files[..|files| - 1]);
      assert files == files[..|files| - 1] + [files[|files| - 1]];
    }
  }

  /** What is uploaded from p is what the commit holds there. */
  ghost predicate HoldsTheCommit(s: Repository, disk: Disk, y: Project, dir: Path, p: Path) {
    && dir + p in s.tree && s.tree[dir + p].mode != MODE_SYMLINK && IsFile(y.tree, p)
    && HasContent(s, dir + p, s.tree[dir + p], BlobFile.Recorded(disk.sha1, disk.sha256, y.tree[p].content))
  }

  predicate GitIgnores(s: Repository, path: Path) {
    s.git.ignores.Some? && s.git.ignores.value(path)
  }

  /** An uploaded file is committed or ignored by git, and one that is committed has the committed content. */
  lemma UploadedIsCommitted(s: Repository, disk: Disk, x: UploadInputs, y: Project, dir: Path, p: Path)
    requires y.Valid() && p in y.Selection().Values && Describes(x, y, dir, disk) && IsClean(s, disk, x)
    ensures IsFile(y.tree, p)
    ensures if dir + p in s.tree then HoldsTheCommit(s, disk, y, dir, p) else GitIgnores(s, dir + p)
  {
    hide HasContent, BlobFile.Recorded, InputPath, Worktree.Valid, Lists, LibrariesByName, WholeRepositoryIsClean,
         IsStaged, IsUntracked;
    var f :| f in x.files && f.path == p;
    if dir + p in s.tree {
      ReadAt(s, dir, x.files, p);
      assert InputMatches(s, disk, dir, x, dir + p);
      assert Feeds(s, dir, x, dir + p);
    } else {
      ListedUncommitted(s, dir, x.files, f);
    }
  }

  lemma {:induction false} ListedUncommitted(s: Repository, dir: Path, files: seq<InputFile>, f: InputFile)
    requires f in files && dir + f.path !in s.tree
    ensures dir + f.path in UncommittedFiles(s, dir, files)
  {
    var n := |files| - 1;
    assert files == files[..n] + [files[n]];
    if f in files[..n] {
      ListedUncommitted(s, dir, files[..n], f);
    }
  }

  /** Git turns the CRLF line endings of content into LF when it stores it. */
  predicate Converts(s: Repository, path: Path, content: seq<BlobFile.Byte>) {
    s.git.attributes.Some? && BlobFile.Crlfs(content) > 0 &&
    var ending := LineEndingsOf(s.git.attributes.value(path), s.autocrlf);
    ending == ConvertText || (ending == ConvertAuto && !BlobFile.IsBinary(content))
  }

  /** The committed bytes are what git stores for content: its own, the normalised ones, or a pointer to it. */
  predicate StoredAs(s: Repository, sha256: seq<BlobFile.Byte> -> string, path: Path, content: seq<BlobFile.Byte>,
                     committed: seq<BlobFile.Byte>) {
    || committed == content
    || (committed == BlobFile.ToLF(content) && Converts(s, path, content))
    || (&& committed == BlobFile.LfsPointer(sha256, content)
        && s.git.attributes.Some? && Attribute(s.git.attributes.value(path), "filter") == "lfs")
  }

  /** Content that is, but for its line endings, the LFS pointer to itself: only its line endings are asked about. */
  predicate PointsToItself(sha256: seq<BlobFile.Byte> -> string, content: seq<BlobFile.Byte>) {
    BlobFile.Crlfs(content) > 0 && BlobFile.ToLF(content) == BlobFile.LfsPointer(sha256, content)
  }

  /** A file compares as having the commit's content exactly when git stores what it holds as what the commit does. */
  lemma ContentIsStored(s: Repository, sha1: seq<BlobFile.Byte> -> string, sha256: seq<BlobFile.Byte> -> string,
                        path: Path, entry: Entry, content: seq<BlobFile.Byte>, committed: seq<BlobFile.Byte>)
    requires BlobFile.Injective(sha1) && entry.blob == BlobFile.BlobID(sha1, committed) && entry.blob != ""
    ensures HasContent(s, path, entry, BlobFile.Recorded(sha1, sha256, content))
            <==> if PointsToItself(sha256, content) && committed == BlobFile.ToLF(content)
                 then Converts(s, path, content) else StoredAs(s, sha256, path, content, committed)
  {
    var lf, pointer := BlobFile.ToLF(content), BlobFile.LfsPointer(sha256, content);
    hide BlobFile.ToLF, BlobFile.LfsPointer, BlobFile.Crlfs, BlobFile.IsBinary, BlobFile.BlobID, BlobFile.Injective,
         LineEndingsOf;
    SameBlob(sha1, committed, content);
    SameBlob(sha1, committed, lf);
    SameBlob(sha1, committed, pointer);
    SameBlob(sha1, lf, pointer);
    BlobFile.ToLFShortens(content);
  }

  lemma SameBlob(sha1: seq<BlobFile.Byte> -> string, x: seq<BlobFile.Byte>, y: seq<BlobFile.Byte>)
    requires BlobFile.Injective(sha1)
    ensures BlobFile.BlobID(sha1, x) == BlobFile.BlobID(sha1, y) <==> x == y
  {
    if BlobFile.BlobID(sha1, x) == BlobFile.BlobID(sha1, y) {
      BlobFile.BlobIDNamesContent(sha1, x, y);
    }
  }

  /** So every committed upload holds what the commit does, as git stores it. */
  lemma UploadsHoldTheCommit(s: Repository, disk: Disk, x: UploadInputs, y: Project, dir: Path, p: Path,
                             committed: seq<BlobFile.Byte>)
    requires y.Valid() && Describes(x, y, dir, disk) && IsClean(s, disk, x)
    requires p in y.Selection().Values && dir + p in s.tree && BlobFile.Injective(disk.sha1)
    requires s.tree[dir + p].blob == BlobFile.BlobID(disk.sha1, committed) != ""
    ensures IsFile(y.tree, p) && StoredAs(s, disk.sha256, dir + p, y.tree[p].content, committed)
  {
    hide HasContent, IsClean, Describes, BlobFile.BlobID, Converts;
    UploadedIsCommitted(s, disk, x, y, dir, p);
    ContentIsStored(s, disk.sha1, disk.sha256, dir + p, s.tree[dir + p], y.tree[p].content, committed);
  }

  /** A committed file that feeds the function is on disk as a regular file. */
  lemma FedIsOnDisk(s: Repository, disk: Disk, x: UploadInputs, y: Project, dir: Path, p: Path)
    requires y.Valid() && Describes(x, y, dir, disk) && IsClean(s, disk, x)
    requires p != [] && dir + p in s.tree && s.tree[dir + p].mode != MODE_SYMLINK
    requires InputPath(y.Rules(), y.Selection(), p).feeds
    ensures IsFile(y.tree, p)
  {
    hide HasContent, BlobFile.Recorded, InputPath, Worktree.Valid, Lists, LibrariesByName, WholeRepositoryIsClean,
         IsStaged, IsUntracked;
    assert UnderDir(dir, dir + p) == p;
    assert Feeds(s, dir, x, dir + p) && InputMatches(s, disk, dir, x, dir + p);
    ReadAt(s, dir, x.files, p);
    if dir + p in Read(s, dir, x.files) {
      assert InputFile(p, Read(s, dir, x.files)[dir + p]) in x.files;
    } else {
      var q :| q in x.paths && dir + q == dir + p;
      assert q == (dir + q)[|dir|..] == p;
      assert p in x.paths + x.roots;
    }
  }

  // ---------- Packaging the checkout ----------

  /** All the theorem assumes: a clean function, and a checkout of its commit. */
  ghost predicate Clean(s: Repository, disk: Disk, x: UploadInputs, y: Project, z: Project, dir: Path) {
    && CommitValid(s) && y.Valid() && Describes(x, y, dir, disk) && IsClean(s, disk, x) && CheckedOut(z, s, dir)
  }

  /** The rules differ only in which libraries elsewhere are replaced. */
  lemma SameRoles(y: Project, z: Project, p: Path)
    requires y.Valid() && z.Valid() && z.matcher == y.matcher && z.info == y.info
    ensures FunctionRole(z.Rules(), p) == FunctionRole(y.Rules(), p)
    ensures ManifestRoles(z.Rules(), z.Rules().manifests, p) == ManifestRoles(y.Rules(), y.Rules().manifests, p)
    ensures (SharedLibrary(p).Some? ==>
               Replaced(z.Rules(), SharedLibrary(p).value) == Replaced(y.Rules(), SharedLibrary(p).value))
            ==> LibraryRole(z.Rules(), p) == LibraryRole(y.Rules(), p)
  {
    hide LibrariesByName, Lists, Worktree.Valid;
    SameManifestRoles(z.Rules(), y.Rules(), y.Rules().manifests, p);
  }

  lemma {:induction false} SameManifestRoles(r: Rules, r': Rules, names: seq<Path>, p: Path)
    requires r.sourceDir == r'.sourceDir
    ensures ManifestRoles(r, names, p) == ManifestRoles(r', names, p)
  {
    if names != [] {
      SameManifestRoles(r, r', names[1..], p);
    }
  }

  /** A file of a library elsewhere is read through that library only. */
  lemma ElsewhereOnly(y: Project, p: Path, a: Path, k: nat)
    requires y.Valid() && NamesApart(y.info) && Elsewhere(p) && Plays(y.Rules(), p, a, k)
    ensures Role(a, k) in LibraryRole(y.Rules(), p) && k == PRIORITY_ELSEWHERE_LIB && p == VOLCANO + a
  {
    var r := y.Rules();
    SafeNamesNotEmpty(y.info.manifests);
    var d, n := RoleKinds(r, p, a, k);
    if Role(a, k) in FunctionRole(r, p) {
      FunctionOutsideLibraries(y.info, p);
    }
    PathOfArchive(r, p, a, k);
  }

  /** A role the checkout gives a file and the worktree does not is in a library that was replaced. */
  lemma GainedRole(y: Project, z: Project, p: Path, a: Path, k: nat)
    requires y.Valid() && z.Valid() && z.matcher == y.matcher && z.info == y.info
    requires Plays(z.Rules(), p, a, k) && !Plays(y.Rules(), p, a, k)
    ensures Elsewhere(p) && Replaced(y.Rules(), SharedLibrary(p).value) && Role(a, k) in LibraryRole(z.Rules(), p)
  {
    SameRoles(y, z, p);
  }

  /** A file that is not there and does not feed the function is beaten where its best role puts it. */
  lemma NotFedIsBeaten(y: Project, q: Path) returns (best: Role, first: Role)
    requires y.Valid() && !IsFile(y.tree, q) && Roles(y.Rules(), q) != []
    requires !InputPath(y.Rules(), y.Selection(), q).feeds
    ensures Best(Roles(y.Rules(), q)) == Some(best) && Plays(y.Rules(), q, best.archive, best.priority)
    ensures forall a, k | Plays(y.Rules(), q, a, k) :: best.priority <= k
    ensures best.archive in y.Selection() && y.Selection()[best.archive] != q
    ensures Plays(y.Rules(), y.Selection()[best.archive], first.archive, first.priority)
    ensures first.priority < best.priority
  {
    hide Worktree.Valid, Lists, LibrariesByName, Roles, SharedLibrary, Selection;
    var r, sel := y.Rules(), y.Selection();
    BestIsLeast(Roles(r, q));
    best := Best(Roles(r, q)).value;
    BestIsLeast(Roles(r, sel[best.archive]));
    first := Best(Roles(r, sel[best.archive])).value;
  }

  /** So it is beaten at its only place, when what is uploaded there has no other either. */
  lemma CoveredIsBeaten(y: Project, q: Path, a: Path, k: nat)
    requires y.Valid() && !IsFile(y.tree, q) && Covered(y, q)
    requires Plays(y.Rules(), q, a, k) && !InputPath(y.Rules(), y.Selection(), q).feeds
    ensures a in y.Selection() && y.Selection()[a] != q
    ensures forall pr: nat | Wins(y.tree, y.Rules(), y.Selection()[a], a, pr) :: pr < k
  {
    hide Worktree.Valid, Lists, LibrariesByName, Roles, SharedLibrary, Selection;
    var best, first := NotFedIsBeaten(y, q);
    assert best.archive == a;
    var w := y.Selection()[a];
    forall pr: nat | Wins(y.tree, y.Rules(), w, a, pr)
      ensures pr < k
    {
      assert Plays(y.Rules(), w, a, pr) && first.archive == a;
    }
  }

  /** And when manifest names are apart at every place. */
  lemma ApartIsBeaten(y: Project, q: Path, a: Path, k: nat)
    requires y.Valid() && NamesApart(y.info) && !IsFile(y.tree, q)
    requires Plays(y.Rules(), q, a, k) && !InputPath(y.Rules(), y.Selection(), q).feeds
    requires !IsSource(y.Rules(), q)
    ensures a in y.Selection() && y.Selection()[a] != q
    ensures forall pr: nat | Wins(y.tree, y.Rules(), y.Selection()[a], a, pr) :: pr < k
  {
    hide Worktree.Valid, Lists, LibrariesByName, Roles, SharedLibrary, Selection, NamesApart;
    var r := y.Rules();
    NamesApartOneArchive(y);
    var best, first := NotFedIsBeaten(y, q);
    assert best.archive == a;
    var w := y.Selection()[a];
    forall pr: nat | Wins(y.tree, r, w, a, pr)
      ensures pr < k
    {
      if IsSource(r, w) {
        if pr > 0 && best.priority <= 1 {
          BesideSource(y, q, a);
        }
      } else {
        assert first.archive == a;
      }
    }
  }

  lemma BesideSource(y: Project, q: Path, a: Path)
    requires y.Valid() && Plays(y.Rules(), q, a, 1)
    ensures q == y.info.Dir() + a
  {
    hide Worktree.Valid, Lists, LibrariesByName, SharedLibrary, ManifestRoles;
    SafeNamesNotEmpty(y.info.manifests);
    var d, n := RoleKinds(y.Rules(), q, a, 1);
  }

  /** A committed file that is not on disk does not feed the function. */
  lemma LackedIsNotFed(s: Repository, disk: Disk, x: UploadInputs, y: Project, z: Project, dir: Path, q: Path)
    requires Clean(s, disk, x, y, z, dir) && IsFile(z.tree, q) && !IsFile(y.tree, q)
    ensures !InputPath(y.Rules(), y.Selection(), q).feeds
  {
    CheckoutIsCommit(s, dir);
    if InputPath(y.Rules(), y.Selection(), q).feeds {
      FedIsOnDisk(s, disk, x, y, dir, q);
    }
  }

  /** A committed file that plays at a in the worktree does not beat the one that wins there. */
  lemma WinnerStays(s: Repository, disk: Disk, x: UploadInputs, y: Project, z: Project, dir: Path,
                    p: Path, a: Path, pr: nat, q: Path, k: nat)
    requires Clean(s, disk, x, y, z, dir) && a in y.Selection() && y.Selection()[a] == p
    requires Wins(y.tree, y.Rules(), p, a, pr) && IsFile(z.tree, q) && Plays(y.Rules(), q, a, k)
    requires !Uncovered(y, z, q)
    ensures pr <= k && (pr == k ==> q == p)
  {
    hide Describes, IsClean, CommitValid, Worktree.Valid, Lists, LibrariesByName, Roles, Selection, Covered;
    if !IsFile(y.tree, q) {
      LackedIsNotFed(s, disk, x, y, z, dir, q);
      CoveredIsBeaten(y, q, a, k);
    }
  }

  lemma LastPriority(r: Rules, p: Path, a: Path, pr: nat)
    requires Plays(r, p, a, pr) && |r.sourceDir| < 999
    ensures pr <= PRIORITY_ELSEWHERE_LIB && (pr == PRIORITY_ELSEWHERE_LIB ==> p == VOLCANO + a)
  {
    if Role(a, pr) in ManifestRoles(r, r.manifests, p) {
      var _, _ := ManifestOfRole(r, r.manifests, p, a, pr);
    } else if Role(a, pr) in LibraryRole(r, p) {
      PathOfArchive(r, p, a, pr);
    }
  }

  /** No committed file beats the upload at a, by the roles both have. */
  lemma NoneBeats(s: Repository, disk: Disk, x: UploadInputs, y: Project, z: Project, dir: Path,
                  p: Path, a: Path, pr: nat, w: Path, k: nat)
    requires Clean(s, disk, x, y, z, dir) && NoneGained(s, y, z, dir) && NoneUncovered(s, y, z, dir)
    requires a in y.Selection() && y.Selection()[a] == p && dir + p in s.tree && IsFile(z.tree, p)
    requires Wins(y.tree, y.Rules(), p, a, pr) && Plays(z.Rules(), p, a, pr)
    requires Written(z, w, a, k)
    ensures w == p
  {
    hide Describes, IsClean, CommitValid, Worktree.Valid, Lists, LibrariesByName, Roles, NamesApart, Selection,
         Covered, Wins;
    WrittenIsLeast(z, w, a, k, p, pr);
    if w != p {
      if Plays(y.Rules(), w, a, k) && !Uncovered(y, z, w) {
        WinnerStays(s, disk, x, y, z, dir, p, a, pr, w, k);
      } else {
        assert Stays(s, y, z, dir, w, a, k);
        var j: nat :| j < k && Plays(z.Rules(), p, a, j);
        WrittenIsLeast(z, w, a, k, p, j);
      }
    }
  }

  /** A committed file that the upload holds at a, a checkout's package holds there too. */
  lemma UploadIsPackaged(s: Repository, disk: Disk, x: UploadInputs, y: Project, z: Project, dir: Path, a: Path)
    requires Clean(s, disk, x, y, z, dir) && NoneLost(s, y, z, dir) && NoneGained(s, y, z, dir)
    requires NoneUncovered(s, y, z, dir)
    requires a in y.Selection() && dir + y.Selection()[a] in s.tree
    ensures a in z.Selection() && z.Selection()[a] == y.Selection()[a]
  {
    hide Describes, IsClean, CommitValid, Worktree.Valid, Lists, LibrariesByName, Roles, NamesApart, HoldsTheCommit,
         NoneGained, NoneUncovered, Wins, Selection;
    var p := y.Selection()[a];
    SelectionIsLeastPriority(y, a, p);
    var pr: nat :| Wins(y.tree, y.Rules(), p, a, pr);
    CommittedUploadInCheckout(s, disk, x, y, z, dir, p);
    if Plays(z.Rules(), p, a, pr) {
      SomethingWins(z, p, a, pr);
      var k := SelectedIsWritten(z, a);
      NoneBeats(s, disk, x, y, z, dir, p, a, pr, z.Selection()[a], k);
    } else {
      var j: nat :| Wins(z.tree, z.Rules(), p, a, j);
      SelectionIsLeastPriority(z, a, p);
    }
  }

  lemma CommittedUploadInCheckout(s: Repository, disk: Disk, x: UploadInputs, y: Project, z: Project, dir: Path,
                                  p: Path)
    requires Clean(s, disk, x, y, z, dir) && p in y.Selection().Values && dir + p in s.tree
    ensures IsFile(z.tree, p)
  {
    hide Describes, IsClean, Selection, NamesApart, HasContent;
    UploadedIsCommitted(s, disk, x, y, dir, p);
    CheckoutIsCommit(s, dir);
    assert [] in y.tree && y.tree[[]].Dir?;
  }

  /** What a checkout's package holds at a, the upload has something there too. */
  lemma PackagedIsUploaded(s: Repository, disk: Disk, x: UploadInputs, y: Project, z: Project, dir: Path, a: Path)
    requires Clean(s, disk, x, y, z, dir) && NoneGained(s, y, z, dir) && NoneUncovered(s, y, z, dir)
    requires a in z.Selection()
    ensures a in y.Selection()
  {
    hide Describes, IsClean, CommitValid, Worktree.Valid, Lists, LibrariesByName, Roles, NamesApart;
    var k := SelectedIsWritten(z, a);
    var q := z.Selection()[a];
    if Plays(y.Rules(), q, a, k) {
      if IsFile(y.tree, q) {
        SomethingWins(y, q, a, k);
      } else if !Uncovered(y, z, q) {
        LackedIsNotFed(s, disk, x, y, z, dir, q);
        CoveredIsBeaten(y, q, a, k);
      } else {
        assert Stays(s, y, z, dir, q, a, k);
      }
    } else {
      assert Stays(s, y, z, dir, q, a, k);
    }
  }

  lemma SameMap(m: map<Path, Path>, n: map<Path, Path>)
    requires forall a <- m :: a in n && n[a] == m[a]
    requires forall a <- n :: a in m
    ensures m == n
  {
  }

  lemma CommitIsPackaged(s: Repository, disk: Disk, x: UploadInputs, y: Project, z: Project, dir: Path)
    requires Clean(s, disk, x, y, z, dir) && NoneLost(s, y, z, dir) && NoneGained(s, y, z, dir)
    requires NoneUncovered(s, y, z, dir)
    ensures CommittedAgree(s, y, z, dir)
  {
    hide Describes, IsClean, CommitValid, Worktree.Valid, Lists, LibrariesByName, Selection, NoneLost, NoneGained,
         NoneUncovered;
    forall a <- y.Selection() | dir + y.Selection()[a] in s.tree
      ensures a in z.Selection() && z.Selection()[a] == y.Selection()[a]
    {
      UploadIsPackaged(s, disk, x, y, z, dir, a);
    }
    forall a | a in z.Selection()
      ensures a in y.Selection()
    {
      PackagedIsUploaded(s, disk, x, y, z, dir, a);
    }
  }

  lemma AgreeingNoneLost(s: Repository, y: Project, z: Project, dir: Path)
    requires y.Valid() && z.Valid() && CommittedAgree(s, y, z, dir)
    ensures NoneLost(s, y, z, dir)
  {
    hide Worktree.Valid, Lists, LibrariesByName, Selection, Roles, Wins;
    forall a | a in y.Selection() && dir + y.Selection()[a] in s.tree
      ensures exists j: nat :: Wins(z.tree, z.Rules(), y.Selection()[a], a, j)
    {
      SelectionIsLeastPriority(z, a, y.Selection()[a]);
    }
  }

  lemma AgreeingStays(s: Repository, y: Project, z: Project, dir: Path, q: Path, a: Path, k: nat)
    requires y.Valid() && z.Valid() && CommittedAgree(s, y, z, dir) && IsFile(z.tree, q) && Plays(z.Rules(), q, a, k)
    ensures Stays(s, y, z, dir, q, a, k)
  {
    hide Worktree.Valid, Lists, LibrariesByName, Selection, Roles;
    SomethingWins(z, q, a, k);
    var j := SelectedIsWritten(z, a);
    WrittenIsLeast(z, z.Selection()[a], a, j, q, k);
  }

  lemma AgreeingNoneGained(s: Repository, y: Project, z: Project, dir: Path)
    requires y.Valid() && z.Valid() && CommittedAgree(s, y, z, dir)
    ensures NoneGained(s, y, z, dir) && NoneUncovered(s, y, z, dir)
  {
    hide Worktree.Valid, Lists, LibrariesByName, Selection, Roles, CommittedAgree, Stays, Plays, Covered;
    forall q, a, k | IsFile(z.tree, q) && Plays(z.Rules(), q, a, k)
      ensures Stays(s, y, z, dir, q, a, k)
    {
      AgreeingStays(s, y, z, dir, q, a, k);
    }
  }

  lemma EachCommitted(s: Repository, disk: Disk, x: UploadInputs, y: Project, dir: Path)
    requires y.Valid() && Describes(x, y, dir, disk) && Uncommitted(s, disk, dir, x) == []
    ensures forall p <- y.Selection().Values :: dir + p in s.tree
  {
    hide Selection, BlobFile.Recorded, InputPath;
    NothingUncommitted(s, dir, x.files);
    forall p | p in y.Selection().Values
      ensures dir + p in s.tree
    {
      assert p in set f | f in x.files :: f.path;
    }
  }

  /** When every upload is committed, agreeing on what is committed is being the same. */
  lemma AgreeingIsSame(s: Repository, y: Project, z: Project, dir: Path)
    requires y.Valid() && z.Valid() && forall p <- y.Selection().Values :: dir + p in s.tree
    ensures CommittedAgree(s, y, z, dir) <==> z.Selection() == y.Selection()
  {
    hide Selection;
    if CommittedAgree(s, y, z, dir) {
      forall a | a in y.Selection()
        ensures a in z.Selection() && z.Selection()[a] == y.Selection()[a]
      {
        assert y.Selection()[a] in y.Selection().Values;
      }
      SameMap(y.Selection(), z.Selection());
    }
  }

  /**
   Soundness of clean, and exactly when, whatever ignore rules and function a checkout has: packaging it writes every
   committed upload of a clean function at the same archive path, and nothing where the upload has nothing, if and only
   if no committed upload loses its role by the checkout's rules, and none loses its place to a committed file that
   gains a role there or to one that was covered at one of its places only. An upload that git does not ignore anything
   of is then the same as the checkout's at every archive path.
   */
  lemma CleanIsTheCommit(s: Repository, disk: Disk, x: UploadInputs, y: Project, z: Project, dir: Path)
    requires Clean(s, disk, x, y, z, dir)
    ensures CommittedAgree(s, y, z, dir)
            <==> NoneLost(s, y, z, dir) && NoneGained(s, y, z, dir) && NoneUncovered(s, y, z, dir)
    ensures Uncommitted(s, disk, dir, x) == [] ==> (CommittedAgree(s, y, z, dir) <==> z.Selection() == y.Selection())
  {
    hide Describes, IsClean, CommitValid, Worktree.Valid, Lists, LibrariesByName, Selection, NoneLost, NoneGained,
         NoneUncovered, CommittedAgree, Uncommitted;
    if NoneLost(s, y, z, dir) && NoneGained(s, y, z, dir) && NoneUncovered(s, y, z, dir) {
      CommitIsPackaged(s, disk, x, y, z, dir);
    }
    if CommittedAgree(s, y, z, dir) {
      AgreeingNoneLost(s, y, z, dir);
      AgreeingNoneGained(s, y, z, dir);
    }
    if Uncommitted(s, disk, dir, x) == [] {
      EachCommitted(s, disk, x, y, dir);
      AgreeingIsSame(s, y, z, dir);
    }
  }

  /** When the manifest names are apart the last of these never happens. */
  lemma ApartNoneUncovered(s: Repository, disk: Disk, x: UploadInputs, y: Project, z: Project, dir: Path)
    requires Clean(s, disk, x, y, z, dir) && NamesApart(y.info) && IsFile(y.tree, y.info.path)
    requires NoneLost(s, y, z, dir)
    ensures NoneUncovered(s, y, z, dir)
  {
    hide Describes, IsClean, CommitValid, Worktree.Valid, Lists, LibrariesByName, Selection, NamesApart, Roles;
    forall q, a, k | Uncovered(y, z, q) && Plays(y.Rules(), q, a, k) && Plays(z.Rules(), q, a, k)
      ensures Stays(s, y, z, dir, q, a, k)
    {
      LackedIsNotFed(s, disk, x, y, z, dir, q);
      ApartIsBeaten(y, q, a, k);
      LostStays(s, y, z, dir, q, a, k);
    }
  }

  /** Where a committed upload beats q, and no role of such is lost, it does in the checkout. */
  lemma LostStays(s: Repository, y: Project, z: Project, dir: Path, q: Path, a: Path, k: nat)
    requires y.Valid() && z.Valid() && NoneLost(s, y, z, dir) && a in y.Selection() && y.Selection()[a] != q
    requires IsFile(z.tree, q) && Plays(z.Rules(), q, a, k)
    requires forall pr: nat | Wins(y.tree, y.Rules(), y.Selection()[a], a, pr) :: pr < k
    ensures Stays(s, y, z, dir, q, a, k)
  {
    hide Worktree.Valid, Lists, LibrariesByName, Selection, Roles;
    var w := y.Selection()[a];
    SelectionIsLeastPriority(y, a, w);
    var pr: nat :| Wins(y.tree, y.Rules(), w, a, pr);
    if dir + w in s.tree && !Plays(z.Rules(), w, a, pr) {
      var j: nat :| Wins(z.tree, z.Rules(), w, a, j);
    }
  }

  // ---------- When the checkout has the same function and ignore rules ----------

  lemma KeptRole(s: Repository, y: Project, z: Project, dir: Path, p: Path, a: Path, k: nat)
    requires y.Valid() && z.Valid() && SameRules(y, z) && dir + p in s.tree
    requires NoneReplaced(s, y, z, dir) && p in y.Selection().Values && Plays(y.Rules(), p, a, k)
    ensures Plays(z.Rules(), p, a, k)
  {
    SameRoles(y, z, p);
  }

  /** A library that the checkout replaces is one whose committed upload loses its role. */
  lemma LostIsReplaced(s: Repository, y: Project, z: Project, dir: Path)
    requires y.Valid() && z.Valid() && NamesApart(y.info) && SameRules(y, z) && NoneLost(s, y, z, dir)
    ensures NoneReplaced(s, y, z, dir)
  {
    hide Worktree.Valid, Lists, LibrariesByName, Selection, NamesApart;
    forall p | p in y.Selection().Values && dir + p in s.tree && Elsewhere(p)
      ensures !Replaced(z.Rules(), SharedLibrary(p).value)
    {
      var a :| a in y.Selection() && y.Selection()[a] == p;
      SelectionIsLeastPriority(y, a, p);
      var k: nat :| Wins(y.tree, y.Rules(), p, a, k);
      if !Plays(z.Rules(), p, a, k) {
        var j: nat :| Wins(z.tree, z.Rules(), p, a, j);
        ElsewhereOnly(z, p, a, j);
      } else {
        ElsewhereOnly(z, p, a, k);
      }
    }
  }

  /** A library that the checkout does not replace any more is one whose committed files gain their roles. */
  lemma GainedIsRestored(s: Repository, y: Project, z: Project, dir: Path)
    requires y.Valid() && z.Valid() && NamesApart(y.info) && SameRules(y, z) && NoneGained(s, y, z, dir)
    ensures NoneRestored(y, z)
  {
    hide Worktree.Valid, Lists, LibrariesByName, Selection, NamesApart;
    forall p, a, k | IsFile(z.tree, p) && Elsewhere(p) && Replaced(y.Rules(), SharedLibrary(p).value)
                     && Role(a, k) in LibraryRole(z.Rules(), p)
      ensures a in y.Selection()
    {
      assert Plays(z.Rules(), p, a, k);
      if Plays(y.Rules(), p, a, k) {
        ElsewhereOnly(y, p, a, k);
      }
      assert Stays(s, y, z, dir, p, a, k);
    }
  }

  lemma NothingElseChanges(s: Repository, y: Project, z: Project, dir: Path)
    requires y.Valid() && z.Valid() && NamesApart(y.info) && SameRules(y, z)
    requires NoneReplaced(s, y, z, dir) && NoneRestored(y, z)
    ensures NoneLost(s, y, z, dir) && NoneGained(s, y, z, dir)
  {
    hide Worktree.Valid, Lists, LibrariesByName, Selection, NamesApart, NoneReplaced;
    forall a, k | a in y.Selection() && dir + y.Selection()[a] in s.tree && Plays(y.Rules(), y.Selection()[a], a, k)
      ensures Plays(z.Rules(), y.Selection()[a], a, k)
    {
      KeptRole(s, y, z, dir, y.Selection()[a], a, k);
    }
    forall q, a, k | IsFile(z.tree, q) && Plays(z.Rules(), q, a, k) && !Plays(y.Rules(), q, a, k)
      ensures Stays(s, y, z, dir, q, a, k)
    {
      GainedRole(y, z, q, a, k);
      if dir + y.Selection()[a] in s.tree && y.Selection()[a] != q {
        GainedLast(s, y, z, dir, q, a, k);
      }
    }
  }

  lemma GainedLast(s: Repository, y: Project, z: Project, dir: Path, q: Path, a: Path, k: nat)
    requires y.Valid() && z.Valid() && SameRules(y, z) && NoneReplaced(s, y, z, dir) && Elsewhere(q)
    requires Role(a, k) in LibraryRole(z.Rules(), q)
    requires a in y.Selection() && dir + y.Selection()[a] in s.tree && y.Selection()[a] != q
    ensures Beats(z.Rules(), y.Selection()[a], a, k)
  {
    hide Worktree.Valid, Lists, LibrariesByName, Selection, NoneReplaced;
    var w := y.Selection()[a];
    PathOfArchive(z.Rules(), q, a, k);
    SelectionIsLeastPriority(y, a, w);
    var j: nat :| Wins(y.tree, y.Rules(), w, a, j);
    LastPriority(y.Rules(), w, a, j);
    KeptRole(s, y, z, dir, w, a, j);
  }

  /**
   When the checkout has the same function and ignore rules, and the manifest names are apart, that is if and only if it
   replaces no library of a committed upload, and restores none from which the archive would gain a file.
   */
  lemma CleanBySameRules(s: Repository, disk: Disk, x: UploadInputs, y: Project, z: Project, dir: Path)
    requires Clean(s, disk, x, y, z, dir) && SameRules(y, z) && NamesApart(y.info) && IsFile(y.tree, y.info.path)
    ensures CommittedAgree(s, y, z, dir) <==> NoneReplaced(s, y, z, dir) && NoneRestored(y, z)
  {
    hide Describes, IsClean, CommitValid, Worktree.Valid, Lists, LibrariesByName, Selection, NoneLost, NoneGained,
         NoneUncovered, CommittedAgree, NoneReplaced, NoneRestored, SameRules, NamesApart;
    CleanIsTheCommit(s, disk, x, y, z, dir);
    if CommittedAgree(s, y, z, dir) {
      LostIsReplaced(s, y, z, dir);
      GainedIsRestored(s, y, z, dir);
    }
    if NoneReplaced(s, y, z, dir) && NoneRestored(y, z) {
      NothingElseChanges(s, y, z, dir);
      ApartNoneUncovered(s, disk, x, y, z, dir);
    }
  }

  /** And with the same libraries in volcano/functions too it always is. */
  lemma CleanWithSameLibraries(s: Repository, disk: Disk, x: UploadInputs, y: Project, z: Project, dir: Path)
    requires Clean(s, disk, x, y, z, dir) && SameRules(y, z) && NamesApart(y.info) && IsFile(y.tree, y.info.path)
    requires FunctionsLibs(y.libs) == FunctionsLibs(z.libs)
    ensures CommittedAgree(s, y, z, dir)
    ensures Uncommitted(s, disk, dir, x) == [] ==> z.Selection() == y.Selection()
    ensures forall p <- y.Selection().Values | dir + p in s.tree :: HoldsTheCommit(s, disk, y, dir, p)
  {
    hide Describes, IsClean, CommitValid, Worktree.Valid, Lists, LibrariesByName, CommittedAgree, HoldsTheCommit;
    forall p | p in y.Selection().Values && Elsewhere(p)
      ensures !Replaced(z.Rules(), SharedLibrary(p).value)
    {
      var a :| a in y.Selection() && y.Selection()[a] == p;
      var k := SelectedIsWritten(y, a);
      ElsewhereOnly(y, p, a, k);
    }
    assert NoneReplaced(s, y, z, dir) && NoneRestored(y, z);
    CleanBySameRules(s, disk, x, y, z, dir);
    CleanIsTheCommit(s, disk, x, y, z, dir);
    forall p | p in y.Selection().Values && dir + p in s.tree
      ensures HoldsTheCommit(s, disk, y, dir, p)
    {
      UploadedIsCommitted(s, disk, x, y, dir, p);
    }
  }
}
