/** Where a checkout of a clean function's commit is packaged otherwise: one input for each condition there is. */
module CheckoutLimits {
  import opened Wrappers
  import opened Strings
  import opened Worktree
  import BlobFile
  import opened DirectoryReader
  import opened Scanner
  import opened Ignore
  import opened Inputs
  import opened Packager
  import opened Prediction
  import opened PredictionExact
  import opened Sources
  import opened DeployCommit
  import opened FunctionClean
  import opened Soundness
  import opened SoundnessLimits
  import opened CleanCheckout

  // ---------- Projects and commits of a few files ----------

  type Contents = map<Path, seq<BlobFile.Byte>>

  predicate Apart(files: Contents) {
    && [] !in files && FUNCTIONS !in files && (forall p, q | p in files && q in files :: !(p < q))
    && forall p <- files | FUNCTIONS < p :: !Underscored(p[2])
  }

  predicate Separate(p: Path, q: Path) {
    !(p <= q) && !(q <= p)
  }

  predicate InNoLibrary(p: Path) {
    p != [] && p != FUNCTIONS && (FUNCTIONS < p ==> !Underscored(p[2]))
  }

  lemma ThreeApart(files: Contents, p: Path, q: Path, w: Path)
    requires files.Keys <= {p, q, w} && Separate(p, q) && Separate(p, w) && Separate(q, w)
    requires InNoLibrary(p) && InNoLibrary(q) && InNoLibrary(w)
    ensures Apart(files)
  {
  }

  /** The project that holds these files, and no library in volcano/functions. */
  lemma ProjectOf(files: Contents, m: Matcher, info: SourceInfo) returns (y: Project)
    requires Apart(files) && Scanned(info)
    ensures y.Valid() && y.tree == Grown(Files(files)) && y.matcher == m && y.info == info
    ensures forall q :: IsFile(y.tree, q) <==> q in files
    ensures forall n :: n !in FunctionsLibs(y.libs)
  {
    hide Scanned, FunctionsLibs, IsRoot;
    OnlyFiles(files);
    GrownIsValid(Files(files));
    var t := Grown(Files(files));
    var libs := ListAll(LibrariesByName(t));
    y := Project(t, m, info, libs);
    forall n
      ensures n !in FunctionsLibs(y.libs)
    {
      FunctionsLibsAreRoots(y, n);
      NoRoot(t, files, n);
    }
  }

  lemma NoRoot(t: Tree, files: Contents, n: Path)
    requires forall q <- t :: q == [] || exists p <- files :: q <= p
    requires forall p <- files | FUNCTIONS < p :: !Underscored(p[2])
    ensures !IsRoot(t, FUNCTIONS, FUNCTIONS + n)
  {
    hide IsRoot;
    var root := FUNCTIONS + n;
    if IsRoot(t, FUNCTIONS, root) {
      RootHere(t, root);
    }
  }

  /** The commit holds these files, and git lists nothing that differs from it. */
  ghost predicate Holds(s: Repository, sha1: seq<BlobFile.Byte> -> string, files: Contents) {
    && s.tree.Keys == files.Keys
    && (forall p <- s.tree :: s.tree[p] == Entry(MODE_FILE, BlobFile.BlobID(sha1, files[p])))
    && s.gitlinks == map[] && s.git.attributes.None? && s.git.untracked == Some([])
    && s.git.index.Some? && forall p :: !IsStaged(s, s.git.index.value, p)
  }

  lemma CommitOf(files: Contents, sha1: seq<BlobFile.Byte> -> string, ignores: Option<Path -> bool>)
    returns (s: Repository)
    ensures Holds(s, sha1, files) && s.git.ignores == ignores
  {
    hide BlobFile.BlobID;
    var tree := map p | p in files :: Entry(MODE_FILE, BlobFile.BlobID(sha1, files[p]));
    var index := ListIndex(tree, tree.Keys);
    s := Repository(tree, map[], true, false, Git(None, Some(index), Some([]), ignores));
    forall p
      ensures !IsStaged(s, index, p)
    {
      if p in tree {
        assert p in Listed(index);
      }
    }
  }

  lemma CheckoutOf(s: Repository, sha1: seq<BlobFile.Byte> -> string, files: Contents)
    requires Holds(s, sha1, files) && Apart(files)
    ensures CommitValid(s) && Checkout(s, []) == Grown(Files(Empty(files.Keys)))
  {
    hide BlobFile.BlobID, Grown, Files, CommitLeaves, IsStaged;
    LeavesOfFiles(s, files.Keys);
  }

  lemma LeavesOfFiles(s: Repository, paths: set<Path>)
    requires s.tree.Keys == paths && s.gitlinks == map[] && [] !in paths
    requires forall p <- s.tree :: s.tree[p].mode == MODE_FILE
    ensures CommitLeaves(s, []) == Files(Empty(paths))
  {
    forall p
      ensures p in CommitLeaves(s, []) <==> p in paths
    {
      if p != [] {
        LeavesAre(s, [], p);
        AtTop(p);
      }
    }
    forall p | p in paths
      ensures CommitLeaves(s, [])[p] == Node.File([], false)
    {
      AtTop(p);
    }
  }

  /** The disk that holds the project. */
  function DiskOf(t: Tree, sha1: seq<BlobFile.Byte> -> string, sha256: seq<BlobFile.Byte> -> string): (disk: Disk)
    ensures disk.sha1 == sha1 && disk.sha256 == sha256
    ensures forall p :: disk.lstat(p) == if p in t then Some(t[p]) else None
  {
    Disk(p => if p in t then Some(t[p]) else None, sha1, sha256)
  }

  /** A committed file is as committed where it is on disk with the same content. */
  lemma SameIsClean(s: Repository, disk: Disk, p: Path, content: seq<BlobFile.Byte>, mode: bool)
    requires p in s.tree && s.tree[p] == Entry(MODE_FILE, BlobFile.BlobID(disk.sha1, content))
    requires disk.lstat(p) == Some(Node.File(content, false))
    ensures EntryClean(s, disk, p, s.tree[p], mode)
  {
  }

  /** A commit of files that are on disk is the whole repository. */
  lemma AllSameClean(s: Repository, disk: Disk, files: Contents)
    requires Holds(s, disk.sha1, files) && forall p <- files :: disk.lstat(p) == Some(Node.File(files[p], false))
    ensures WholeRepositoryIsClean(s, disk)
  {
    hide BlobFile.BlobID, BlobFile.Recorded, EntryClean, IsStaged;
    forall p | p in s.tree
      ensures EntryClean(s, disk, p, s.tree[p], s.fileMode)
    {
      SameIsClean(s, disk, p, files[p], s.fileMode);
    }
  }

  /** What a clean upload comes to where git ignores all that is uncommitted, and nothing is staged or untracked. */
  lemma CleanParts(s: Repository, disk: Disk, x: UploadInputs, files: Contents, uncommitted: seq<Path>)
    requires Holds(s, disk.sha1, files) && x.dir == Some([]) && forall p :: x.placed(p)
    requires Uncommitted(s, disk, [], x) == uncommitted && |uncommitted| <= 1
    requires uncommitted != [] ==> s.git.ignores.Some? && s.git.ignores.value(uncommitted[0])
    requires uncommitted != [] ==> WholeRepositoryIsClean(s, disk)
    requires forall p <- s.tree :: InputMatches(s, disk, [], x, p)
    ensures IsClean(s, disk, x)
  {
    hide BlobFile.BlobID, InputMatches, IsStaged, WholeRepositoryIsClean, Uncommitted, Feeds;
  }

  lemma InTheRepository(x: UploadInputs, y: Project, disk: Disk)
    requires y.Valid() && Describes(x, y, [], disk)
    ensures x.dir == Some([])
  {
  }

  /** The .gitignore is the only path beside the uploads. */
  lemma UncommittedHere(s: Repository, disk: Disk, x: UploadInputs, y: Project)
    requires y.Valid() && Describes(x, y, [], disk) && x.paths == [Gitignore()]
    requires y.Selection().Values <= s.tree.Keys
    ensures Uncommitted(s, disk, [], x)
            == if Gitignore() in s.tree || disk.lstat(Gitignore()).None? then [] else [Gitignore()]
  {
    hide Worktree.Valid, Lists, LibrariesByName, Selection, BlobFile.Recorded;
    UploadsCommitted(s, disk, x, y);
    AllCommitted(s, x.files);
    OneUncommitted(s, disk, Gitignore());
  }

  lemma OneUncommitted(s: Repository, disk: Disk, p: Path)
    ensures UncommittedPaths(s, disk, [], [p]) == if p in s.tree || disk.lstat(p).None? then [] else [p]
  {
    AtTop(p);
    assert [p][..0] == [];
  }

  /** Files without a role are not uploaded. */
  lemma OnlyWritten(y: Project, p: Path, a: Path)
    requires y.Valid() && IsFile(y.tree, p) && Roles(y.Rules(), p) == [Role(a, 0)]
    requires forall q | IsFile(y.tree, q) && q != p :: Roles(y.Rules(), q) == []
    ensures y.Selection().Values == {p} && y.Selection().Keys == {a}
  {
    hide Worktree.Valid, Lists, LibrariesByName, Selection, Roles;
    assert Plays(y.Rules(), p, a, 0);
    SomethingWins(y, p, a, 0);
    forall b | b in y.Selection()
      ensures b == a && y.Selection()[b] == p
    {
      var k := SelectedIsWritten(y, b);
      assert Plays(y.Rules(), y.Selection()[b], b, k);
    }
  }

  lemma OneRole(z: Project, p: Path, a: Path, k: nat)
    requires z.Valid() && IsFile(z.tree, p) && Roles(z.Rules(), p) == [Role(a, k)]
    ensures a in z.Selection()
  {
    hide Selection, Worktree.Valid, Lists, LibrariesByName, Roles;
    assert Plays(z.Rules(), p, a, k);
    SomethingWins(z, p, a, k);
  }

  /** A .gitignore has no role. */
  lemma GitignoreRole(r: Rules)
    requires r.manifests == [] && VOLCANO <= r.sourceDir && (!r.isDir ==> VOLCANO < r.source)
    ensures Roles(r, Gitignore()) == []
  {
    assert Gitignore()[0] != VOLCANO[0];
  }

  // ---------- A .gitignore that the commit lacks ----------

  /** Of a file with this content the rules leave out the library's file, and nothing else. */
  ghost predicate ListsLibraryFile(compiled: Compiled) {
    forall q, isDir :: compiled(q, isDir) <==> q == LIBRARY_FILE
  }

  lemma SourceIsPython(cat: Catalog, t: Tree)
    requires ".py" in cat.byExtension && cat.byExtension[".py"] == Runtime("main.py", []) && IsFile(t, SOURCE)
    ensures Finds(t, cat, "f.py", Info())
  {
    assert Ext("f.py") == ".py" by {
      assert "f.py"[..3] == "f.p" && "f.p"[..2] == "f." && "f.py"[3] == 'y' && "f.p"[2] == 'p';
    }
    assert FUNCTIONS + ["f.py"] == SOURCE;
  }

  lemma ListedRole(r: Rules, compiled: Compiled)
    requires !r.isDir && r.source == SOURCE && r.manifests == [] && ["_l"] !in r.functionsLibs
    requires r.matcher == Combined(BuiltIn(), Some(compiled)) && ListsLibraryFile(compiled)
    ensures Roles(r, LIBRARY_FILE) == [] && ReplacedBy(r, LIBRARY_FILE).None?
  {
    hide BuiltIn, Combined, SharedLibrary, ManifestRole;
    var p := LIBRARY_FILE;
    LibraryOfFileHere();
    CombinedIgnores(BuiltIn(), compiled, p, p);
    assert p[0..] == p && p != SOURCE;
  }

  lemma LibraryOfFileHere()
    ensures SharedLibrary(LIBRARY_FILE) == Some(LibraryRef(["_l"], ["volcano", "_l"])) && LIBRARY_FILE != SOURCE
  {
    var p := LIBRARY_FILE;
    assert p[1] != FUNCTIONS[1] && SOURCE[1] != p[1];
    assert FirstUnderscored(p, 1) == 1 && p[1..2] == ["_l"] && p[..2] == ["volcano", "_l"];
  }

  /** Whatever the .gitignore lists is left out. */
  lemma CombinedIgnores(patterns: Patterns, compiled: Compiled, p: Path, q: Path)
    requires compiled(q, false)
    ensures Combined(patterns, Some(compiled))(p, q, false)
  {
  }

  /** What is on disk: the function, the library's file, and the .gitignore. */
  function StrayFiles(content: seq<BlobFile.Byte>): Contents {
    map[SOURCE := [], LIBRARY_FILE := [], Gitignore() := content]
  }

  /** And what is committed. */
  function TrackedFiles(): Contents {
    map[SOURCE := [], LIBRARY_FILE := []]
  }

  lemma StrayApart(content: seq<BlobFile.Byte>)
    ensures Apart(StrayFiles(content)) && Apart(TrackedFiles()) && Gitignore() !in TrackedFiles()
    ensures SOURCE in TrackedFiles() && SOURCE != LIBRARY_FILE && Empty(TrackedFiles().Keys) == TrackedFiles()
  {
    hide Empty, Apart, Separate, InNoLibrary;
    StraySeparate();
    ThreeApart(StrayFiles(content), SOURCE, LIBRARY_FILE, Gitignore());
    ThreeApart(TrackedFiles(), SOURCE, LIBRARY_FILE, Gitignore());
    EmptyOf(TrackedFiles());
  }

  lemma StraySeparate()
    ensures Separate(SOURCE, LIBRARY_FILE) && Separate(SOURCE, Gitignore()) && Separate(LIBRARY_FILE, Gitignore())
    ensures InNoLibrary(SOURCE) && InNoLibrary(LIBRARY_FILE) && InNoLibrary(Gitignore())
    ensures SOURCE != LIBRARY_FILE && Gitignore() !in {SOURCE, LIBRARY_FILE}
  {
    assert SOURCE[1] != LIBRARY_FILE[1] && Gitignore()[0] != "volcano" && LIBRARY_FILE[1] != FUNCTIONS[1];
  }

  lemma EmptyOf(files: Contents)
    requires forall p <- files :: files[p] == []
    ensures Empty(files.Keys) == files
  {
  }

  lemma StrayRoles(r: Rules, content: seq<BlobFile.Byte>, compiled: Compiled)
    requires !r.isDir && r.source == SOURCE && r.sourceDir == FUNCTIONS && r.entrypoint == Main() && r.manifests == []
    requires ["_l"] !in r.functionsLibs && r.matcher == Combined(BuiltIn(), Some(compiled))
    requires ListsLibraryFile(compiled)
    ensures SOURCE in StrayFiles(content) && Roles(r, SOURCE) == [Role(Main(), 0)]
    ensures forall q <- StrayFiles(content) | q != SOURCE :: Roles(r, q) == []
    ensures Roles(r, LIBRARY_FILE) == [] && ReplacedBy(r, LIBRARY_FILE).None?
  {
    hide Main, Roles, BuiltIn, Combined, ReplacedBy, ListsLibraryFile;
    SourceRole(r);
    ListedRole(r, compiled);
    GitignoreRole(r);
  }

  /** What deploying with that .gitignore writes. */
  lemma StrayWorktree(content: seq<BlobFile.Byte>, compiled: Compiled) returns (y: Project)
    requires ListsLibraryFile(compiled)
    ensures y.Valid() && y.tree == Grown(Files(StrayFiles(content))) && y.info == Info()
    ensures forall q :: IsFile(y.tree, q) <==> q in StrayFiles(content)
    ensures y.matcher == Combined(BuiltIn(), Some(compiled))
    ensures forall n :: n !in FunctionsLibs(y.libs)
    ensures y.Selection().Values == {SOURCE} && y.Selection().Keys == {Main()}
    ensures Roles(y.Rules(), LIBRARY_FILE) == [] && ReplacedBy(y.Rules(), LIBRARY_FILE).None?
  {
    hide IgnoredName, Main, Worktree.Valid, Lists, LibrariesByName, Selection, Roles, Grown, Files,
         FunctionsLibs, BuiltIn, Combined, ReplacedBy, ListsLibraryFile, StrayFiles, NamesApart;
    InfoIsPlain();
    hide Info;
    StrayApart(content);
    y := ProjectOf(StrayFiles(content), Combined(BuiltIn(), Some(compiled)), Info());
    StrayRoles(y.Rules(), content, compiled);
    OnlyWritten(y, SOURCE, Main());
  }

  /** And what deploying the checkout would. */
  lemma StrayCheckout() returns (z: Project)
    ensures z.Valid() && z.tree == Grown(Files(TrackedFiles())) && z.info == Info()
    ensures forall q :: IsFile(z.tree, q) <==> q in TrackedFiles()
    ensures z.matcher == BuiltInRules()
    ensures forall n :: n !in FunctionsLibs(z.libs)
    ensures ["_l", "x"] in z.Selection() && |["_l", "x"]| == 2
  {
    hide IgnoredName, Main, Worktree.Valid, Lists, LibrariesByName, Selection, Roles, Grown, Files,
         FunctionsLibs, BuiltInRules;
    InfoIsPlain();
    hide Info, NamesApart;
    StrayApart([]);
    z := ProjectOf(TrackedFiles(), BuiltInRules(), Info());
    LibraryFileRoles(z.Rules());
    OneRole(z, LIBRARY_FILE, ["_l", "x"], PRIORITY_ELSEWHERE_LIB);
  }

  /** git ignores the .gitignore alone. */
  function SelfListed(): Path -> bool {
    p => p == Gitignore()
  }

  lemma FilesAre(t: Tree, files: Contents)
    requires t == Grown(Files(files))
    ensures forall p <- files :: p in t && t[p] == Node.File(files[p], false)
  {
  }

  /** With that .gitignore on disk, and ignored by git itself, the function is clean. */
  lemma StrayIsClean(s: Repository, disk: Disk, x: UploadInputs, y: Project, content: seq<BlobFile.Byte>)
    requires y.Valid() && y.tree == Grown(Files(StrayFiles(content))) && y.Selection().Values == {SOURCE}
    requires Describes(x, y, [], disk) && x.paths == [Gitignore()] && forall p :: x.placed(p)
    requires Roles(y.Rules(), LIBRARY_FILE) == [] && ReplacedBy(y.Rules(), LIBRARY_FILE).None?
    requires disk == DiskOf(y.tree, disk.sha1, disk.sha256)
    requires Holds(s, disk.sha1, TrackedFiles()) && s.git.ignores == Some(SelfListed())
    ensures IsClean(s, disk, x)
  {
    hide Worktree.Valid, Lists, LibrariesByName, Selection, Roles, BlobFile.BlobID, Describes, Apart, Gitignore,
         InputMatches, IsStaged, DiskOf, Grown, Files, ReplacedBy, WholeRepositoryIsClean, Uncommitted;
    StrayApart(content);
    StrayOnTree(y.tree, content);
    hide StrayFiles;
    UncommittedHere(s, disk, x, y);
    AllSameClean(s, disk, TrackedFiles());
    StrayMatches(s, disk, x, y, content);
    InTheRepository(x, y, disk);
    CleanParts(s, disk, x, TrackedFiles(), [Gitignore()]);
  }

  lemma StrayOnTree(t: Tree, content: seq<BlobFile.Byte>)
    requires t == Grown(Files(StrayFiles(content)))
    ensures Gitignore() in t
    ensures forall p <- TrackedFiles() :: p in t && t[p] == Node.File(TrackedFiles()[p], false)
  {
    hide Grown, Files;
    StrayApart(content);
    FilesAre(t, StrayFiles(content));
  }

  lemma StrayMatches(s: Repository, disk: Disk, x: UploadInputs, y: Project, content: seq<BlobFile.Byte>)
    requires y.Valid() && y.tree == Grown(Files(StrayFiles(content))) && y.Selection().Values == {SOURCE}
    requires Describes(x, y, [], disk) && x.paths == [Gitignore()]
    requires Roles(y.Rules(), LIBRARY_FILE) == [] && ReplacedBy(y.Rules(), LIBRARY_FILE).None?
    requires Holds(s, disk.sha1, TrackedFiles())
    ensures forall p <- s.tree :: InputMatches(s, disk, [], x, p)
  {
    hide Worktree.Valid, Lists, LibrariesByName, Selection, Roles, BlobFile.BlobID, Describes, Apart, Gitignore,
         InputMatches, IsStaged, Grown, Files, ReplacedBy;
    StrayApart(content);
    FilesAre(y.tree, StrayFiles(content));
    ExtraMatches(s, disk, x, y, LIBRARY_FILE);
    UploadMatches(s, disk, x, y, SOURCE);
  }

  lemma StrayUpload(y: Project, content: seq<BlobFile.Byte>, sha1: seq<BlobFile.Byte> -> string,
                    sha256: seq<BlobFile.Byte> -> string)
    returns (s: Repository, disk: Disk, x: UploadInputs)
    requires y.Valid() && y.tree == Grown(Files(StrayFiles(content))) && y.Selection().Values == {SOURCE}
    requires Roles(y.Rules(), LIBRARY_FILE) == [] && ReplacedBy(y.Rules(), LIBRARY_FILE).None?
    ensures s.tree.Keys == TrackedFiles().Keys && CommitValid(s) && Checkout(s, []) == Grown(Files(TrackedFiles()))
    ensures disk.sha1 == sha1 && disk.sha256 == sha256
    ensures Describes(x, y, [], disk) && IsClean(s, disk, x) && x.paths == [Gitignore()]
  {
    hide Worktree.Valid, Lists, LibrariesByName, Selection, Roles, IsClean, Describes, CommitValid, Checkout, Grown,
         Files, ReplacedBy, DiskOf, BlobFile.BlobID;
    StrayApart(content);
    s := CommitOf(TrackedFiles(), sha1, Some(SelfListed()));
    CheckoutOf(s, sha1, TrackedFiles());
    disk := DiskOf(y.tree, sha1, sha256);
    x := UploadOf(y, disk);
    StrayIsClean(s, disk, x, y, content);
  }

  /**
   A .gitignore that the commit lacks and git itself ignores is not missed: the function is clean, and a committed file
   that it keeps out of the upload goes into the package of a checkout. Nothing but StrayIgnore tells: the function, and
   the libraries replaced, are the same.
   */
  lemma StrayIgnoreChangesThePackage(cat: Catalog, meaning: Meaning, content: seq<BlobFile.Byte>,
                                     sha1: seq<BlobFile.Byte> -> string, sha256: seq<BlobFile.Byte> -> string)
    returns (s: Repository, disk: Disk, x: UploadInputs, y: Project, z: Project)
    requires ".py" in cat.byExtension && cat.byExtension[".py"] == Runtime("main.py", [])
    requires ListsLibraryFile(meaning(content))
    ensures Clean(s, disk, x, y, z, []) && Gitignore() in x.paths && disk.sha1 == sha1 && disk.sha256 == sha256
    ensures Deployed(s, disk, y, z, [], BuiltIn(), meaning, cat, "f.py", None)
    ensures SameEntry(s, [], cat, y.info) && NamesApart(y.info) && IsFile(y.tree, y.info.path) && y.info == z.info
    ensures NoneReplaced(s, y, z, []) && NoneRestored(y, z) && StrayIgnore(s, y, [])
    ensures !CommittedAgree(s, y, z, [])
  {
    hide IgnoredName, Main, Worktree.Valid, Lists, LibrariesByName, Selection, Roles, IsClean, Describes,
         CommitValid, NamesApart, FunctionsLibs, BuiltIn, Combined, Checkout, Finds, Grown, Files, ReplacedBy,
         DiskOf, BlobFile.BlobID, ListsLibraryFile, CommittedAgree, SameEntry, NoneReplaced, NoneRestored, StrayIgnore,
         Deployed;
    InfoIsPlain();
    hide Info;
    StrayApart(content);
    y := StrayWorktree(content, meaning(content));
    z := StrayCheckout();
    s, disk, x := StrayUpload(y, content, sha1, sha256);
    StrayDeployed(s, disk, y, z, content, meaning, cat);
    StrayHere(s, cat, y, content);
    NothingReplaced(s, y, z);
    StrayGained(s, y, z);
  }

  lemma StrayDeployed(s: Repository, disk: Disk, y: Project, z: Project, content: seq<BlobFile.Byte>, meaning: Meaning,
                      cat: Catalog)
    requires ".py" in cat.byExtension && cat.byExtension[".py"] == Runtime("main.py", [])
    requires y.tree == Grown(Files(StrayFiles(content))) && z.tree == Grown(Files(TrackedFiles()))
    requires y.matcher == Combined(BuiltIn(), Some(meaning(content))) && z.matcher == BuiltInRules()
    requires y.info == Info() == z.info && s.tree.Keys == TrackedFiles().Keys
    ensures Deployed(s, disk, y, z, [], BuiltIn(), meaning, cat, "f.py", None)
  {
    hide Combined, Grown, Files, Finds, Info, BuiltIn, IgnoreFile, CheckedOutIgnore, StrayFiles, TrackedFiles;
    StrayOnDisk(s, disk, y.tree, content);
    FilesAre(z.tree, TrackedFiles());
    StrayApart(content);
    SourceIsPython(cat, y.tree);
    SourceIsPython(cat, z.tree);
  }

  lemma StrayOnDisk(s: Repository, disk: Disk, t: Tree, content: seq<BlobFile.Byte>)
    requires t == Grown(Files(StrayFiles(content))) && s.tree.Keys == TrackedFiles().Keys
    ensures IgnoreFile(t) == Some(content) && IsFile(t, SOURCE) && CheckedOutIgnore(s, disk, [], None)
  {
    hide Grown, Files;
    FilesAre(t, StrayFiles(content));
    StrayApart(content);
    AtTop(Gitignore());
  }

  lemma StrayGained(s: Repository, y: Project, z: Project)
    requires y.Valid() && z.Valid() && y.Selection().Keys == {Main()} && ["_l", "x"] in z.Selection()
    ensures !CommittedAgree(s, y, z, [])
  {
    hide Selection, Worktree.Valid, Lists, LibrariesByName, Main;
    assert |["_l", "x"]| == 2;
  }

  lemma StrayHere(s: Repository, cat: Catalog, y: Project, content: seq<BlobFile.Byte>)
    requires s.tree.Keys == TrackedFiles().Keys && forall q :: IsFile(y.tree, q) <==> q in StrayFiles(content)
    requires y.info == Info()
    ensures StrayIgnore(s, y, []) && SameEntry(s, [], cat, y.info) && [] + Gitignore() !in s.tree
  {
    InfoIsPlain();
    hide Info;
    StrayApart(content);
    AtTop(SOURCE);
    AtTop(Gitignore());
  }

  lemma NothingReplaced(s: Repository, y: Project, z: Project)
    requires y.Valid() && z.Valid() && forall n :: n !in FunctionsLibs(y.libs) && n !in FunctionsLibs(z.libs)
    ensures NoneReplaced(s, y, z, []) && NoneRestored(y, z)
  {
    hide Selection, Worktree.Valid, Lists, LibrariesByName, SharedLibrary, LibraryRole;
  }

  // ---------- An entrypoint that the worktree lacks ----------

  const ENTRY: Path := ["volcano", "functions", "f", "main.py"]
  const EARLIER: Path := ["volcano", "functions", "f", "index.js"]

  function FunctionDir(): Path {
    ["volcano", "functions", "f"]
  }

  function EntryInfo(): SourceInfo {
    SourceInfo(ENTRY, true, "main.py", [])
  }

  ghost predicate ListsEarlier(compiled: Compiled) {
    forall q, isDir :: compiled(q, isDir) <==> q == EARLIER
  }

  /** A name from "m" to "y" is not ignored. */
  lemma FromMToY(s: string)
    requires s != "" && s[0] == 'm' && s[|s| - 1] == 'y'
    ensures !IgnoredName(s)
  {
    hide EndsWith;
    OtherEnd(s, ".pyc");
    OtherEnd(s, ".pyo");
    OtherEnd(s, ".rbc");
    OtherEnd(s, ".log");
    OtherEnd(s, ".swp");
    OtherEnd(s, ".swo");
  }

  lemma OtherEnd(s: string, end: string)
    requires s != "" && end != "" && s[|s| - 1] != end[|end| - 1]
    ensures !EndsWith(s, end)
  {
  }

  lemma EntryInfoIsPlain()
    ensures Scanned(EntryInfo()) && NamesApart(EntryInfo()) && EntryInfo().isDir && EntryInfo().path == ENTRY
    ensures EntryInfo().Dir() == FunctionDir() && SafeManifests(EntryInfo().manifests) == []
  {
    assert ENTRY[..3] == FunctionDir();
  }

  /** What is on disk: the entrypoint and the .gitignore. */
  function PresentFiles(content: seq<BlobFile.Byte>): Contents {
    map[ENTRY := [], Gitignore() := content]
  }

  /** The commit holds an earlier entrypoint too. */
  function DeletedFiles(content: seq<BlobFile.Byte>): Contents {
    map[ENTRY := [], EARLIER := [], Gitignore() := content]
  }

  lemma EntriesApart(content: seq<BlobFile.Byte>)
    ensures Apart(PresentFiles(content)) && Apart(DeletedFiles(content))
    ensures Gitignore() !in {ENTRY, EARLIER} && EARLIER != ENTRY
  {
    hide Apart, Separate, InNoLibrary;
    EntriesSeparate();
    ThreeApart(PresentFiles(content), ENTRY, EARLIER, Gitignore());
    ThreeApart(DeletedFiles(content), ENTRY, EARLIER, Gitignore());
  }

  lemma EntriesSeparate()
    ensures Separate(ENTRY, EARLIER) && Separate(ENTRY, Gitignore()) && Separate(EARLIER, Gitignore())
    ensures InNoLibrary(ENTRY) && InNoLibrary(EARLIER) && InNoLibrary(Gitignore())
    ensures Gitignore() !in {ENTRY, EARLIER} && EARLIER != ENTRY
  {
    assert Gitignore()[0] != "volcano" && ENTRY[3][0] != EARLIER[3][0];
    assert ENTRY[2] == EARLIER[2] == "f";
  }

  lemma EntryRole(r: Rules, compiled: Compiled)
    requires r.isDir && r.sourceDir == FunctionDir() && r.manifests == []
    requires r.matcher == Combined(BuiltIn(), Some(compiled)) && ListsEarlier(compiled)
    ensures Roles(r, ENTRY) == [Role(["main.py"], 0)]
  {
    hide IgnoredName;
    assert ENTRY[3..] == ["main.py"] && !Underscored(ENTRY[2]);
    FromMToY("main.py");
    assert ENTRY[3][0] != EARLIER[3][0];
  }

  lemma EarlierRole(r: Rules, compiled: Compiled)
    requires r.isDir && r.sourceDir == FunctionDir() && r.manifests == []
    requires r.matcher == Combined(BuiltIn(), Some(compiled)) && ListsEarlier(compiled)
    ensures Roles(r, EARLIER) == [] && ReplacedBy(r, EARLIER).None?
  {
    hide Combined, ManifestRole, Keeps, SharedLibrary, BuiltIn;
    EarlierLeftOut(r.matcher, compiled);
  }

  lemma EarlierLeftOut(m: Matcher, compiled: Compiled)
    requires m == Combined(BuiltIn(), Some(compiled)) && ListsEarlier(compiled)
    ensures FunctionDir() < EARLIER && !Keeps(m, FunctionDir(), FunctionDir(), EARLIER)
    ensures SharedLibrary(EARLIER).None?
  {
    hide BuiltIn, Combined;
    CombinedIgnores(BuiltIn(), compiled, EARLIER[3..], EARLIER);
    assert !Underscored(EARLIER[2]);
  }

  lemma EntryWorktree(content: seq<BlobFile.Byte>, compiled: Compiled) returns (y: Project)
    requires ListsEarlier(compiled)
    ensures y.Valid() && y.tree == Grown(Files(PresentFiles(content))) && y.info == EntryInfo()
    ensures forall q :: IsFile(y.tree, q) <==> q in PresentFiles(content)
    ensures y.matcher == Combined(BuiltIn(), Some(compiled))
    ensures y.Selection().Values == {ENTRY}
    ensures Roles(y.Rules(), EARLIER) == [] && ReplacedBy(y.Rules(), EARLIER).None?
  {
    hide IgnoredName, Worktree.Valid, Lists, LibrariesByName, Selection, Roles, Grown, Files, FunctionsLibs, BuiltIn,
         Combined, ReplacedBy, ListsEarlier, NamesApart, Apart, Gitignore;
    EntryInfoIsPlain();
    hide EntryInfo;
    EntriesApart(content);
    y := ProjectOf(PresentFiles(content), Combined(BuiltIn(), Some(compiled)), EntryInfo());
    EntryRole(y.Rules(), compiled);
    EarlierRole(y.Rules(), compiled);
    GitignoreRole(y.Rules());
    OnlyWritten(y, ENTRY, ["main.py"]);
  }

  /** A committed .gitignore that is not uploaded is compared with what is on disk. */
  lemma GitignoreMatches(s: Repository, disk: Disk, x: UploadInputs, y: Project, content: seq<BlobFile.Byte>)
    requires y.Valid() && Describes(x, y, [], disk) && x.paths == [Gitignore()]
    requires Gitignore() in s.tree && Gitignore() !in y.Selection().Values
    requires s.tree[Gitignore()] == Entry(MODE_FILE, BlobFile.BlobID(disk.sha1, content))
    requires disk.lstat(Gitignore()) == Some(Node.File(content, false))
    ensures InputMatches(s, disk, [], x, Gitignore())
  {
    hide BlobFile.BlobID, BlobFile.Recorded, Worktree.Valid, Lists, LibrariesByName, Selection, EntryClean, HasContent;
    AtTop(Gitignore());
    ReadIsSelected(s, [], x.files, y.Selection().Values, Gitignore());
    InRepositoryAt([], x.paths, Gitignore());
    SameIsClean(s, disk, Gitignore(), content, false);
  }

  lemma EntryIsClean(s: Repository, disk: Disk, x: UploadInputs, y: Project, content: seq<BlobFile.Byte>)
    requires y.Valid() && y.tree == Grown(Files(PresentFiles(content))) && y.Selection().Values == {ENTRY}
    requires Describes(x, y, [], disk) && x.paths == [Gitignore()] && forall p :: x.placed(p)
    requires Roles(y.Rules(), EARLIER) == [] && ReplacedBy(y.Rules(), EARLIER).None?
    requires disk == DiskOf(y.tree, disk.sha1, disk.sha256)
    requires Holds(s, disk.sha1, DeletedFiles(content))
    ensures IsClean(s, disk, x)
  {
    hide Worktree.Valid, Lists, LibrariesByName, Selection, Roles, BlobFile.BlobID, Describes,
         InputMatches, IsStaged, DiskOf, Grown, Files, ReplacedBy, WholeRepositoryIsClean, Uncommitted;
    EntriesApart(content);
    FilesAre(y.tree, PresentFiles(content));
    UncommittedHere(s, disk, x, y);
    ExtraMatches(s, disk, x, y, EARLIER);
    UploadMatches(s, disk, x, y, ENTRY);
    GitignoreMatches(s, disk, x, y, content);
    InTheRepository(x, y, disk);
    CleanParts(s, disk, x, DeletedFiles(content), []);
  }

  lemma EntryUpload(y: Project, content: seq<BlobFile.Byte>, sha1: seq<BlobFile.Byte> -> string,
                    sha256: seq<BlobFile.Byte> -> string)
    returns (s: Repository, disk: Disk, x: UploadInputs)
    requires y.Valid() && y.tree == Grown(Files(PresentFiles(content))) && y.Selection().Values == {ENTRY}
    requires Roles(y.Rules(), EARLIER) == [] && ReplacedBy(y.Rules(), EARLIER).None?
    ensures Holds(s, sha1, DeletedFiles(content)) && CommitValid(s)
    ensures Checkout(s, []) == Grown(Files(Empty(DeletedFiles(content).Keys)))
    ensures disk.sha1 == sha1 && disk.sha256 == sha256
    ensures Describes(x, y, [], disk) && IsClean(s, disk, x) && x.paths == [Gitignore()]
  {
    hide Worktree.Valid, Lists, LibrariesByName, Selection, Roles, IsClean, Describes, CommitValid, Checkout, Grown,
         Files, ReplacedBy, DiskOf, BlobFile.BlobID;
    EntriesApart(content);
    s := CommitOf(DeletedFiles(content), sha1, None);
    CheckoutOf(s, sha1, DeletedFiles(content));
    disk := DiskOf(y.tree, sha1, sha256);
    x := UploadOf(y, disk);
    EntryIsClean(s, disk, x, y, content);
  }

  /** The first entry of f is main.py on disk, and the earlier one in a checkout. */
  lemma EntryHere(cat: Catalog, t: Tree, files: Contents)
    requires Worktree.Valid(t) && t == Grown(Files(files)) && forall q :: IsFile(t, q) <==> q in files
    requires files.Keys == {ENTRY, Gitignore()} || files.Keys == {ENTRY, EARLIER, Gitignore()}
    requires "index.js" in cat.byEntrypoint && "main.py" in cat.byEntrypoint
    ensures var first := if EARLIER in files then "index.js" else "main.py";
            && FUNCTIONS + ["f"] == FunctionDir() && FunctionDir() in t && t[FunctionDir()].Dir?
            && FirstEntry(t, cat, FunctionDir(), first)
  {
    hide Grown, Files, Worktree.Valid, Less, FunctionDir;
    EntryPaths();
    assert IsFile(t, ENTRY);
    AncestorIsDir(t, ENTRY, 3);
    forall other | IsEntry(t, cat, FunctionDir(), other)
      ensures other == "main.py" || (other == "index.js" && EARLIER in files)
    {
      EntryPath(other);
    }
  }

  lemma EntryPaths()
    ensures FunctionDir() + ["main.py"] == ENTRY && FunctionDir() + ["index.js"] == EARLIER
    ensures ENTRY[..3] == FunctionDir() == FUNCTIONS + ["f"] && Less("index.js", "main.py")
  {
  }

  lemma EntryPath(name: string)
    ensures FunctionDir() + [name] == ENTRY ==> name == "main.py"
    ensures FunctionDir() + [name] == EARLIER ==> name == "index.js"
    ensures FunctionDir() + [name] != Gitignore()
  {
    var q := FunctionDir() + [name];
    assert q[3] == name && q[0] == "volcano" && Gitignore()[0] != "volcano";
  }

  ghost predicate TwoEntrypoints(cat: Catalog) {
    && "index.js" in cat.byEntrypoint && cat.byEntrypoint["index.js"].entrypoint == "index.js"
    && "main.py" in cat.byEntrypoint && cat.byEntrypoint["main.py"] == Runtime("main.py", [])
  }

  /** The function a checkout has. */
  function EarlierInfo(cat: Catalog): SourceInfo
    requires "index.js" in cat.byEntrypoint
  {
    DirectoryFunction(cat, FunctionDir(), "index.js")
  }

  lemma EntryFound(cat: Catalog, t: Tree, files: Contents)
    requires Worktree.Valid(t) && t == Grown(Files(files)) && (forall q :: IsFile(t, q) <==> q in files)
    requires files.Keys == {ENTRY, Gitignore()} || files.Keys == {ENTRY, EARLIER, Gitignore()}
    requires TwoEntrypoints(cat)
    ensures Finds(t, cat, "f", if EARLIER in files then EarlierInfo(cat) else EntryInfo())
  {
    hide Grown, Files, Worktree.Valid, FirstEntry;
    EntryHere(cat, t, files);
    assert FunctionDir() + ["main.py"] == ENTRY;
  }

  lemma EntryCheckout(cat: Catalog, m: Matcher, content: seq<BlobFile.Byte>) returns (z: Project)
    requires TwoEntrypoints(cat)
    ensures z.Valid() && z.tree == Grown(Files(Empty(DeletedFiles(content).Keys))) && z.matcher == m
    ensures z.info == EarlierInfo(cat) && z.info.path == EARLIER && z.info.entrypoint == "index.js"
    ensures Finds(z.tree, cat, "f", z.info)
  {
    hide Grown, Files, Worktree.Valid, Lists, LibrariesByName, FunctionsLibs, Finds, EarlierInfo, Scanned, Apart;
    var files := CheckedOutFiles(content);
    EarlierInfoIs(cat);
    z := ProjectOf(files, m, EarlierInfo(cat));
    EntryFound(cat, z.tree, files);
  }

  lemma EarlierInfoIs(cat: Catalog)
    requires TwoEntrypoints(cat)
    ensures Scanned(EarlierInfo(cat)) && EarlierInfo(cat).path == EARLIER && EarlierInfo(cat).entrypoint == "index.js"
  {
    assert FunctionDir() + ["index.js"] == EARLIER && !Underscored(EARLIER[2]);
  }

  lemma CheckedOutFiles(content: seq<BlobFile.Byte>) returns (files: Contents)
    ensures files == Empty(DeletedFiles(content).Keys) && Apart(files) && EARLIER in files
    ensures files.Keys == {ENTRY, EARLIER, Gitignore()}
  {
    EntriesApart(content);
    files := Empty(DeletedFiles(content).Keys);
  }

  lemma CommittedIgnore(s: Repository, disk: Disk, content: seq<BlobFile.Byte>)
    requires Holds(s, disk.sha1, DeletedFiles(content)) && BlobFile.BlobID(disk.sha1, content) != ""
    ensures CheckedOutIgnore(s, disk, [], Some(content)) && [] + Gitignore() in s.tree && [] + EARLIER in s.tree
    ensures s.tree[[] + EARLIER].mode != MODE_SYMLINK
  {
    hide BlobFile.BlobID, IsStaged;
    EntriesApart(content);
    AtTop(Gitignore());
    AtTop(EARLIER);
    assert s.tree[Gitignore()].blob == BlobFile.BlobID(disk.sha1, content);
    assert StoredAs(s, disk.sha256, Gitignore(), content, content);
  }

  /**
   An earlier entrypoint that the commit holds, and the worktree has lost, is not missed where the .gitignore lists it:
   the function is clean, with every upload and the .gitignore committed, and a checkout finds another function.
   */
  lemma EarlierEntryChangesTheFunction(cat: Catalog, meaning: Meaning, content: seq<BlobFile.Byte>,
                                       sha1: seq<BlobFile.Byte> -> string, sha256: seq<BlobFile.Byte> -> string)
    returns (s: Repository, disk: Disk, x: UploadInputs, y: Project, z: Project)
    requires TwoEntrypoints(cat) && ListsEarlier(meaning(content)) && BlobFile.BlobID(sha1, content) != ""
    ensures Clean(s, disk, x, y, z, []) && Gitignore() in x.paths && disk.sha1 == sha1 && disk.sha256 == sha256
    ensures Deployed(s, disk, y, z, [], BuiltIn(), meaning, cat, "f", Some(content))
    ensures Uncommitted(s, disk, [], x) == [] && !StrayIgnore(s, y, [])
    ensures y.info.entrypoint == "main.py" && z.info.entrypoint == "index.js" && !SameEntry(s, [], cat, y.info)
  {
    hide IgnoredName, Worktree.Valid, Lists, LibrariesByName, Selection, Roles, IsClean, Describes, CommitValid,
         FunctionsLibs, BuiltIn, Combined, Checkout, Finds, Grown, Files, ReplacedBy, BlobFile.BlobID, ListsEarlier,
         Uncommitted, CheckedOutIgnore, IgnoreFile, StrayIgnore, SameEntry;
    y := EntryWorktree(content, meaning(content));
    z := EntryCheckout(cat, y.matcher, content);
    s, disk, x := EntryUpload(y, content, sha1, sha256);
    EntryFound(cat, y.tree, PresentFiles(content));
    CommittedIgnore(s, disk, content);
    EntryOnDisk(s, disk, x, y, content);
    EarlierThere(s, cat);
  }

  lemma EntryOnDisk(s: Repository, disk: Disk, x: UploadInputs, y: Project, content: seq<BlobFile.Byte>)
    requires y.Valid() && y.tree == Grown(Files(PresentFiles(content))) && y.Selection().Values == {ENTRY}
    requires Describes(x, y, [], disk) && x.paths == [Gitignore()] && s.tree.Keys == DeletedFiles(content).Keys
    ensures IgnoreFile(y.tree) == Some(content) && Uncommitted(s, disk, [], x) == [] && !StrayIgnore(s, y, [])
  {
    hide Grown, Files, Worktree.Valid, Lists, LibrariesByName, Selection, Describes, Uncommitted;
    FilesAre(y.tree, PresentFiles(content));
    EntriesApart(content);
    AtTop(Gitignore());
    UncommittedHere(s, disk, x, y);
  }

  lemma EarlierThere(s: Repository, cat: Catalog)
    requires TwoEntrypoints(cat) && [] + EARLIER in s.tree && s.tree[[] + EARLIER].mode != MODE_SYMLINK
    ensures !SameEntry(s, [], cat, EntryInfo())
  {
    EntryInfoIsPlain();
    assert FunctionDir() + ["index.js"] == EARLIER;
    assert Less("index.js", "main.py") && CommitsFile(s, [], EARLIER);
  }

  // ---------- A manifest that is covered at one of its places only ----------

  const MANIFEST: Path := ["_l", "x"]

  function NestedInfo(): SourceInfo {
    SourceInfo(SOURCE, false, "main.py", ["_l/x"])
  }

  lemma NestedNames()
    ensures Scanned(NestedInfo()) && !NestedInfo().isDir && NestedInfo().path == SOURCE
    ensures NestedInfo().Dir() == FUNCTIONS && EntrypointOf(NestedInfo()) == Main()
    ensures SafeManifests(NestedInfo().manifests) == [MANIFEST]
  {
    hide SafeArchivePath, Main;
    MainIsSafe();
    assert SafePath(MANIFEST) && Join(MANIFEST, "/") == "_l/x" by {
      assert Join(["x"], "/") == "x" && MANIFEST[1..] == ["x"];
    }
    SafeArchivePathReadsBack("", MANIFEST);
    assert SafeManifests([]) == [] && ["_l/x"][1..] == [];
    assert SOURCE[..2] == FUNCTIONS;
  }

  ghost predicate NestedRules(r: Rules) {
    && !r.isDir && r.source == SOURCE && r.sourceDir == FUNCTIONS && r.entrypoint == Main() && r.manifests == [MANIFEST]
    && r.functionsLibs == {} && r.matcher == BuiltInRules()
  }

  /** The library's file is a manifest too, at another place. */
  lemma NestedRoles(r: Rules)
    requires NestedRules(r)
    ensures Roles(r, SOURCE) == [Role(Main(), 0)] && Roles(r, MANIFEST) == [Role(MANIFEST, 3)]
    ensures Roles(r, LIBRARY_FILE) == [Role(LIBRARY_FILE, 2), Role(MANIFEST, PRIORITY_ELSEWHERE_LIB)]
  {
    hide BuiltInRules, LibraryRole, FunctionRole, Main, ManifestRole;
    OneManifest(r, SOURCE);
    OneManifest(r, MANIFEST);
    OneManifest(r, LIBRARY_FILE);
    NestedManifest(r);
    NestedLibrary(r);
    NestedFunction(r);
  }

  lemma OneManifest(r: Rules, p: Path)
    ensures ManifestRoles(r, [MANIFEST], p) == ManifestRole(r, MANIFEST, p)
  {
    assert [MANIFEST][1..] == [] && ManifestRoles(r, [], p) == [];
  }

  lemma NestedManifest(r: Rules)
    requires NestedRules(r)
    ensures ManifestRole(r, MANIFEST, SOURCE) == [] && ManifestRole(r, MANIFEST, MANIFEST) == [Role(MANIFEST, 3)]
    ensures ManifestRole(r, MANIFEST, LIBRARY_FILE) == [Role(LIBRARY_FILE, 2)]
  {
    hide BuiltInRules, Main, ManifestDir;
    NestedDirs();
    assert [] + MANIFEST == MANIFEST && ["volcano"] + MANIFEST == LIBRARY_FILE;
  }

  lemma NestedDirs()
    ensures ManifestDir(MANIFEST, SOURCE).None? && ManifestDir(MANIFEST, MANIFEST) == Some([])
    ensures ManifestDir(MANIFEST, LIBRARY_FILE) == Some(["volcano"])
  {
    assert SOURCE[1..][0] != MANIFEST[0];
    assert MANIFEST[0..] == MANIFEST && MANIFEST[..0] == [];
    assert LIBRARY_FILE[1..] == MANIFEST && LIBRARY_FILE[..1] == ["volcano"];
  }

  lemma NestedLibrary(r: Rules)
    requires NestedRules(r)
    ensures LibraryRole(r, SOURCE) == [] && LibraryRole(r, MANIFEST) == []
    ensures LibraryRole(r, LIBRARY_FILE) == [Role(MANIFEST, PRIORITY_ELSEWHERE_LIB)]
  {
    hide BuiltInRules, Main;
    LibraryFileRole(r);
    assert !Underscored(SOURCE[2]) && MANIFEST[0] != VOLCANO[0];
  }

  lemma NestedFunction(r: Rules)
    requires NestedRules(r)
    ensures FunctionRole(r, SOURCE) == [Role(Main(), 0)] && FunctionRole(r, MANIFEST) == []
    ensures FunctionRole(r, LIBRARY_FILE) == []
  {
    hide BuiltInRules, Main;
    assert LIBRARY_FILE[1] != SOURCE[1];
  }

  lemma NestedInNoLibrary()
    ensures SharedLibrary(MANIFEST).None? && MANIFEST[0] != VOLCANO[0]
  {
  }

  /** The rules cannot misjudge any file that is on disk. */
  lemma NestedNotMisjudged(patterns: Patterns, p: Path)
    ensures !Misjudged(patterns, NestedInfo(), p)
  {
    NestedNames();
    hide NestedInfo, KeptInLibrary, Main, ArchivedAs, SharedLibrary;
    NestedInNoLibrary();
    if d, n :| d < FUNCTIONS && n in [MANIFEST] && p == d + n {
      NestedAbove(p, d);
    }
  }

  lemma NestedAbove(p: Path, d: Path)
    requires d < FUNCTIONS && p == d + MANIFEST
    ensures !(FUNCTIONS < p) && p != Main() && (p == MANIFEST || |p| == 3)
  {
    hide Main;
    assert d == FUNCTIONS[..|d|] && |d| <= 1;
    if d != [] {
      assert p[1] == MANIFEST[0];
    } else {
      assert p == MANIFEST;
    }
  }

  function NestedFiles(): Contents {
    map[SOURCE := [], LIBRARY_FILE := [], MANIFEST := []]
  }

  lemma NestedApart()
    ensures Apart(NestedFiles()) && Apart(TrackedFiles()) && Empty(NestedFiles().Keys) == NestedFiles()
    ensures MANIFEST !in TrackedFiles() && SOURCE != LIBRARY_FILE && Gitignore() !in NestedFiles()
  {
    hide Empty, Apart, Separate, InNoLibrary;
    StraySeparate();
    NestedSeparate();
    ThreeApart(NestedFiles(), SOURCE, LIBRARY_FILE, MANIFEST);
    ThreeApart(TrackedFiles(), SOURCE, LIBRARY_FILE, MANIFEST);
    EmptyOf(NestedFiles());
  }

  lemma NestedSeparate()
    ensures Separate(SOURCE, MANIFEST) && Separate(LIBRARY_FILE, MANIFEST) && InNoLibrary(MANIFEST)
    ensures MANIFEST !in {SOURCE, LIBRARY_FILE, Gitignore()}
  {
    assert MANIFEST[0] != "volcano" && Gitignore()[0] != "_l";
  }

  lemma NestedProject(files: Contents) returns (y: Project)
    requires Apart(files)
    ensures y.Valid() && y.tree == Grown(Files(files)) && (forall q :: IsFile(y.tree, q) <==> q in files)
    ensures y.info == NestedInfo() && y.matcher == BuiltInRules() && NestedRules(y.Rules())
    ensures FunctionsLibs(y.libs) == {}
  {
    hide BuiltInRules, Main, Worktree.Valid, Lists, LibrariesByName, Grown, Files, FunctionsLibs, Apart;
    NestedNames();
    hide NestedInfo;
    y := ProjectOf(files, BuiltInRules(), NestedInfo());
  }

  /** Who is written at the manifest's place: it where it is on disk, and the library's file where it is not. */
  lemma NestedWritten(y: Project)
    requires y.Valid() && NestedRules(y.Rules()) && IsFile(y.tree, LIBRARY_FILE)
    requires forall q | IsFile(y.tree, q) :: q in NestedFiles()
    ensures MANIFEST in y.Selection() && LIBRARY_FILE in y.Selection()
    ensures y.Selection()[MANIFEST] == if IsFile(y.tree, MANIFEST) then MANIFEST else LIBRARY_FILE
  {
    hide Worktree.Valid, Lists, LibrariesByName, Selection, Roles, NestedRules, Main;
    var r := y.Rules();
    NestedRoles(r);
    assert Plays(r, LIBRARY_FILE, MANIFEST, PRIORITY_ELSEWHERE_LIB) && Plays(r, LIBRARY_FILE, LIBRARY_FILE, 2);
    SomethingWins(y, LIBRARY_FILE, MANIFEST, PRIORITY_ELSEWHERE_LIB);
    SomethingWins(y, LIBRARY_FILE, LIBRARY_FILE, 2);
    var k := SelectedIsWritten(y, MANIFEST);
    assert Plays(r, y.Selection()[MANIFEST], MANIFEST, k);
    if IsFile(y.tree, MANIFEST) {
      assert Plays(r, MANIFEST, MANIFEST, 3);
      WrittenIsLeast(y, y.Selection()[MANIFEST], MANIFEST, k, MANIFEST, 3);
    }
  }

  lemma NestedUploads(y: Project)
    requires y.Valid() && NestedRules(y.Rules()) && forall q :: IsFile(y.tree, q) <==> q in TrackedFiles()
    ensures y.Selection().Values == TrackedFiles().Keys
  {
    hide Worktree.Valid, Lists, LibrariesByName, Selection, Roles, NestedRules, Main;
    NestedApart();
    NestedRoles(y.Rules());
    assert Plays(y.Rules(), SOURCE, Main(), 0);
    SomethingWins(y, SOURCE, Main(), 0);
    NestedWritten(y);
    OnlyFilesSelected(y);
  }

  /** The manifest does not feed the function: the library's file, at another place of its own, took its place. */
  lemma NestedTold(y: Project)
    requires y.Valid() && NestedRules(y.Rules()) && forall q :: IsFile(y.tree, q) <==> q in TrackedFiles()
    ensures InputPath(y.Rules(), y.Selection(), MANIFEST) == Answer(false, Some(LIBRARY_FILE))
  {
    hide Worktree.Valid, Lists, LibrariesByName, Selection, Roles, NestedRules, Main;
    NestedApart();
    NestedRoles(y.Rules());
    NestedWritten(y);
    BestIsLeast(Roles(y.Rules(), MANIFEST));
    BestIsLeast(Roles(y.Rules(), LIBRARY_FILE));
    assert Role(LIBRARY_FILE, 2) in Roles(y.Rules(), LIBRARY_FILE);
  }

  lemma NestedMatches(s: Repository, disk: Disk, x: UploadInputs, y: Project)
    requires y.Valid() && Describes(x, y, [], disk) && x.paths == [Gitignore()]
    requires MANIFEST in s.tree && LIBRARY_FILE in s.tree && MANIFEST !in y.Selection().Values
    requires InputPath(y.Rules(), y.Selection(), MANIFEST) == Answer(false, Some(LIBRARY_FILE))
    ensures InputMatches(s, disk, [], x, MANIFEST)
  {
    hide BlobFile.Recorded, Worktree.Valid, Lists, LibrariesByName, Selection, EntryClean, HasContent, InputPath;
    AtTop(MANIFEST);
    AtTop(LIBRARY_FILE);
    ReadIsSelected(s, [], x.files, y.Selection().Values, MANIFEST);
    InRepositoryAt([], x.paths, MANIFEST);
    assert Gitignore()[0] != MANIFEST[0] && UnderDir([], MANIFEST) == MANIFEST;
  }

  lemma NestedIsClean(s: Repository, disk: Disk, x: UploadInputs, y: Project)
    requires y.Valid() && y.tree == Grown(Files(TrackedFiles())) && NestedRules(y.Rules())
    requires forall q :: IsFile(y.tree, q) <==> q in TrackedFiles()
    requires Describes(x, y, [], disk) && x.paths == [Gitignore()] && forall p :: x.placed(p)
    requires disk == DiskOf(y.tree, disk.sha1, disk.sha256) && Holds(s, disk.sha1, NestedFiles())
    ensures IsClean(s, disk, x) && Uncommitted(s, disk, [], x) == []
  {
    hide Worktree.Valid, Lists, LibrariesByName, Selection, Roles, BlobFile.BlobID, Describes, InputPath, NestedRules,
         InputMatches, IsStaged, DiskOf, Grown, Files, WholeRepositoryIsClean, Uncommitted, IsFile;
    NestedApart();
    FilesAre(y.tree, TrackedFiles());
    NestedUploads(y);
    NestedTold(y);
    NestedOnDisk(y.tree);
    UncommittedHere(s, disk, x, y);
    NestedMatches(s, disk, x, y);
    UploadMatches(s, disk, x, y, SOURCE);
    UploadMatches(s, disk, x, y, LIBRARY_FILE);
    InTheRepository(x, y, disk);
    CleanParts(s, disk, x, NestedFiles(), []);
  }

  lemma NestedOnDisk(t: Tree)
    requires t == Grown(Files(TrackedFiles()))
    ensures Gitignore() !in t && IsFile(t, SOURCE) && IsFile(t, LIBRARY_FILE)
  {
    hide Grown, Files, Gitignore, Worktree.Valid, Apart;
    NestedApart();
    TrackedHere(t);
    hide TrackedFiles;
    NoGitignore(t);
  }

  lemma TrackedHere(t: Tree)
    requires t == Grown(Files(TrackedFiles()))
    ensures IsFile(t, SOURCE) && IsFile(t, LIBRARY_FILE)
    ensures forall q <- t :: q <= SOURCE || q <= LIBRARY_FILE
  {
    hide Grown, Files;
    NestedApart();
    OnlyFiles(TrackedFiles());
    AboveTwo(t, TrackedFiles(), SOURCE, LIBRARY_FILE);
  }

  lemma AboveTwo(t: Tree, files: Contents, p: Path, q: Path)
    requires files.Keys == {p, q} && forall d <- t :: d == [] || exists e <- files :: d <= e
    ensures forall d <- t :: d <= p || d <= q
  {
  }

  lemma NestedUpload(y: Project, sha1: seq<BlobFile.Byte> -> string, sha256: seq<BlobFile.Byte> -> string)
    returns (s: Repository, disk: Disk, x: UploadInputs)
    requires y.Valid() && y.tree == Grown(Files(TrackedFiles())) && NestedRules(y.Rules())
    requires forall q :: IsFile(y.tree, q) <==> q in TrackedFiles()
    ensures s.tree.Keys == NestedFiles().Keys && CommitValid(s) && Checkout(s, []) == Grown(Files(NestedFiles()))
    ensures disk.sha1 == sha1 && disk.sha256 == sha256
    ensures Describes(x, y, [], disk) && IsClean(s, disk, x) && Uncommitted(s, disk, [], x) == []
  {
    hide Worktree.Valid, Lists, LibrariesByName, Selection, Roles, IsClean, Describes, CommitValid, Checkout, Grown,
         Files, DiskOf, BlobFile.BlobID, NestedRules, IsFile, Uncommitted;
    NestedApart();
    s := CommitOf(NestedFiles(), sha1, None);
    CheckoutOf(s, sha1, NestedFiles());
    disk := DiskOf(y.tree, sha1, sha256);
    x := UploadOf(y, disk);
    NestedIsClean(s, disk, x, y);
  }

  lemma SameRulesKeepAll(s: Repository, y: Project, z: Project)
    requires y.Valid() && z.Valid() && y.Rules() == z.Rules()
    ensures NoneLost(s, y, z, []) && NoneGained(s, y, z, [])
  {
    hide Worktree.Valid, Lists, LibrariesByName, Selection, Roles;
  }

  lemma NestedTaken(s: Repository, y: Project, z: Project)
    requires y.Valid() && z.Valid() && LIBRARY_FILE in s.tree && MANIFEST in y.Selection()
    requires y.Selection()[MANIFEST] == LIBRARY_FILE
    requires MANIFEST in z.Selection() && z.Selection()[MANIFEST] == MANIFEST
    ensures !CommittedAgree(s, y, z, [])
  {
    hide Worktree.Valid, Lists, LibrariesByName, Selection;
    AtTop(LIBRARY_FILE);
    assert |LIBRARY_FILE| == 3 && |MANIFEST| == 2;
  }

  /**
   A committed manifest that the worktree lacks is taken for one that is covered when the file at its place has a better
   role elsewhere: the function is clean, and in a checkout the manifest takes that place back. Here the function,
   the rules and the libraries are the same, and the prediction is exact for every file, in every project.
   */
  lemma CoveredAtOnePlaceOnly(sha1: seq<BlobFile.Byte> -> string, sha256: seq<BlobFile.Byte> -> string)
    returns (s: Repository, disk: Disk, x: UploadInputs, y: Project, z: Project)
    ensures Clean(s, disk, x, y, z, []) && SameRules(y, z) && IsFile(y.tree, y.info.path)
    ensures IsFile(z.tree, z.info.path) && Uncommitted(s, disk, [], x) == []
    ensures disk.sha1 == sha1 && disk.sha256 == sha256
    ensures forall patterns, p :: !Misjudged(patterns, y.info, p)
    ensures FunctionsLibs(y.libs) == FunctionsLibs(z.libs) && NoneLost(s, y, z, []) && NoneGained(s, y, z, [])
    ensures !NoneUncovered(s, y, z, []) && !CommittedAgree(s, y, z, [])
  {
    hide IgnoredName, Main, Worktree.Valid, Lists, LibrariesByName, Selection, Roles, IsClean, Describes, CommitValid,
         FunctionsLibs, BuiltInRules, Checkout, Grown, Files, Uncommitted, NestedInfo, CommittedAgree, NoneLost,
         NoneGained, NoneUncovered, Misjudged, Apart;
    NestedApart();
    NestedNames();
    y := NestedProject(TrackedFiles());
    z := NestedProject(NestedFiles());
    s, disk, x := NestedUpload(y, sha1, sha256);
    NestedWritten(y);
    NestedWritten(z);
    NestedTaken(s, y, z);
    SameRulesKeepAll(s, y, z);
    CleanIsTheCommit(s, disk, x, y, z, []);
    forall patterns, p
      ensures !Misjudged(patterns, y.info, p)
    {
      NestedNotMisjudged(patterns, p);
    }
  }
}
