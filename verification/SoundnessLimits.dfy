/** Where a clean function is not the commit: what the check of replaced libraries catches and what it misses. */
module SoundnessLimits {
  import opened Wrappers
  import opened Strings
  import opened Worktree
  import BlobFile
  import opened DirectoryReader
  import opened Scanner
  import opened Packager
  import opened Ignore
  import opened Inputs
  import opened Prediction
  import opened PredictionExact
  import opened DeployCommit
  import opened FunctionClean
  import opened Soundness

  /**
   What the check catches: when a library is replaced in the worktree and not in a checkout, and the
   archive would gain a committed file by it, the commit holds a symlink where the replacing library is.
   */
  lemma RestoredOnlyBySymlink(s: Repository, disk: Disk, x: UploadInputs, y: Project, z: Project, dir: Path,
                              p: Path, a: Path, k: nat)
    requires Clean(s, disk, x, y, z, dir) && SameRules(y, z) && NamesApart(y.info)
    requires Uncommitted(s, disk, dir, x) == [] && p !in x.paths
    requires IsFile(z.tree, p) && Elsewhere(p) && Replaced(y.Rules(), SharedLibrary(p).value)
    requires Role(a, k) in LibraryRole(z.Rules(), p)
    ensures var root := dir + (FUNCTIONS + SharedLibrary(p).value.name);
            root in s.tree && s.tree[root].mode == MODE_SYMLINK
  {
    hide Describes, IsClean, CommitValid, Worktree.Valid, Lists, LibrariesByName, NamesApart, Selection, SameRules,
         SharedLibrary, IsRoot, Uncommitted, Checkout;
    var root := FUNCTIONS + SharedLibrary(p).value.name;
    LibraryRoleTells(z.Rules(), p, a, k);
    assert LibraryKeeps(y.Rules(), SharedLibrary(p).value, p) by {
      SameLibraryRules(y, z, p);
    }
    var q := ReplacementIsCommitted(s, disk, x, y, z, dir, p, root);
    FunctionsLibsAreRoots(z, SharedLibrary(p).value.name);
    FunctionsLibsAreRoots(y, SharedLibrary(p).value.name);
    RootHere(y.tree, root);
    if dir + root !in s.tree || s.tree[dir + root].mode != MODE_SYMLINK {
      RootStands(s, z, dir, root, q);
    }
  }

  lemma RootHere(t: Tree, root: Path)
    requires IsRoot(t, FUNCTIONS, root)
    ensures root in t && FUNCTIONS < root && |root| == 3 && Underscored(root[2])
  {
  }

  lemma LibraryRoleTells(r: Rules, p: Path, a: Path, k: nat)
    requires Role(a, k) in LibraryRole(r, p)
    ensures SharedLibrary(p).Some? && LibraryKeeps(r, SharedLibrary(p).value, p)
    ensures !Replaced(r, SharedLibrary(p).value)
    ensures |SharedLibrary(p).value.name| >= 1
  {
  }

  lemma SameLibraryRules(y: Project, z: Project, p: Path)
    requires y.Valid() && z.Valid() && SameRules(y, z) && SharedLibrary(p).Some?
    ensures LibraryKeeps(y.Rules(), SharedLibrary(p).value, p) == LibraryKeeps(z.Rules(), SharedLibrary(p).value, p)
  {
  }

  /** A file of a replaced library is told to be replaced by the one in volcano/functions. */
  lemma ToldReplaced(y: Project, p: Path)
    requires y.Valid() && NamesApart(y.info) && Elsewhere(p) && Replaced(y.Rules(), SharedLibrary(p).value)
    requires LibraryKeeps(y.Rules(), SharedLibrary(p).value, p)
    ensures Roles(y.Rules(), p) == []
    ensures InputPath(y.Rules(), y.Selection(), p) == Answer(false, Some(FUNCTIONS + SharedLibrary(p).value.name))
  {
    var r := y.Rules();
    if Roles(r, p) != [] {
      var role := Roles(r, p)[0];
      assert Plays(r, p, role.archive, role.priority);
      ElsewhereOnly(y, p, role.archive, role.priority);
    }
  }

  lemma NoRoleNotSelected(y: Project, p: Path)
    requires y.Valid() && Roles(y.Rules(), p) == []
    ensures p !in y.Selection().Values
  {
    if b :| b in y.Selection() && y.Selection()[b] == p {
      var l := SelectedIsWritten(y, b);
    }
  }

  lemma InRepositoryAt(dir: Path, paths: seq<Path>, p: Path)
    ensures dir + p in InRepository(dir, paths) <==> p in paths
  {
    if dir + p in InRepository(dir, paths) {
      var o :| o in paths && dir + o == dir + p;
      assert o == (dir + o)[|dir|..] == (dir + p)[|dir|..] == p;
    }
  }

  lemma ReadIsSelected(s: Repository, dir: Path, files: seq<InputFile>, selected: set<Path>, p: Path)
    requires dir + p in s.tree && (set f | f in files :: f.path) == selected && p !in selected
    ensures dir + p !in Read(s, dir, files)
  {
    ReadAt(s, dir, files, p);
  }

  /** A file with no role is neither uploaded nor, unless it is one of paths, fed. */
  lemma NoRoleNotFed(s: Repository, disk: Disk, x: UploadInputs, y: Project, dir: Path, p: Path)
    requires y.Valid() && Describes(x, y, dir, disk) && p !in x.paths && p != [] && dir + p in s.tree
    requires Roles(y.Rules(), p) == []
    ensures !Feeds(s, dir, x, dir + p)
  {
    NoRoleNotSelected(y, p);
    ReadIsSelected(s, dir, x.files, y.Selection().Values, p);
    InRepositoryAt(dir, x.paths, p);
    assert UnderDir(dir, dir + p) == p;
    assert !InputPath(y.Rules(), y.Selection(), p).feeds;
  }

  /** There is a committed file in the place of the library that replaced p's. */
  lemma ReplacementIsCommitted(s: Repository, disk: Disk, x: UploadInputs, y: Project, z: Project, dir: Path,
                               p: Path, root: Path) returns (q: Path)
    requires Clean(s, disk, x, y, z, dir) && SameRules(y, z) && NamesApart(y.info)
    requires Uncommitted(s, disk, dir, x) == [] && p !in x.paths
    requires IsFile(z.tree, p) && Elsewhere(p) && Replaced(y.Rules(), SharedLibrary(p).value)
    requires LibraryKeeps(y.Rules(), SharedLibrary(p).value, p) && root == FUNCTIONS + SharedLibrary(p).value.name
    ensures q in s.tree && dir + root <= q
  {
    hide IsClean, CommitValid, Worktree.Valid, Lists, LibrariesByName, NamesApart, Roles, Selection,
         SameRules, IsReplaced, Feeds, HasContent, BlobFile.Recorded;
    CheckoutIsCommit(s, dir);
    assert p != [];
    ToldReplaced(y, p);
    NoRoleNotFed(s, disk, x, y, dir, p);
    ToldInRepository(x, y, dir, disk, p, root);
    CleanMatches(s, disk, x, dir, dir + p);
    q := HeldOrUploaded(s, disk, x, y, dir, dir + root);
  }

  lemma CleanMatches(s: Repository, disk: Disk, x: UploadInputs, dir: Path, path: Path)
    requires IsClean(s, disk, x) && x.dir == Some(dir) && path in s.tree
    ensures InputMatches(s, disk, dir, x, path)
  {
    hide InputMatches, WholeRepositoryIsClean;
  }

  lemma ToldInRepository(x: UploadInputs, y: Project, dir: Path, disk: Disk, p: Path, root: Path)
    requires y.Valid() && Describes(x, y, dir, disk) && p != []
    requires InputPath(y.Rules(), y.Selection(), p).shadowedBy == Some(root)
    ensures ShadowedBy(dir, x, dir + p) == Some(dir + root)
  {
    hide BlobFile.Recorded, Worktree.Valid, Lists, LibrariesByName, InputPath, Selection;
    assert UnderDir(dir, dir + p) == p;
  }

  lemma HeldOrUploaded(s: Repository, disk: Disk, x: UploadInputs, y: Project, dir: Path, over: Path) returns (q: Path)
    requires Uncommitted(s, disk, dir, x) == [] && IsReplaced(s, dir, x, over)
    ensures q in s.tree && over <= q
  {
    if u :| u in Uploaded(dir, x.files) && Within(over, u) {
      NothingUncommitted(s, dir, x.files);
      return u;
    }
    q :| q in s.tree && over <= q;
  }

  /** Where a committed file lies in a library's place, and no symlink is there, a checkout has the library. */
  lemma RootStands(s: Repository, z: Project, dir: Path, root: Path, q: Path)
    requires CommitValid(s) && z.Valid() && z.tree == Checkout(s, dir)
    requires q in s.tree && dir + root <= q && FUNCTIONS < root && |root| == 3 && Underscored(root[2])
    requires dir + root in s.tree ==> s.tree[dir + root].mode != MODE_SYMLINK
    ensures IsRoot(z.tree, FUNCTIONS, root)
  {
    CheckoutIsCommit(s, dir);
    var rest := q[|dir|..];
    assert q == dir + rest && root <= rest;
    if root != rest {
      LeafAncestor(s, dir, rest, |root|);
      assert rest[..|root|] == root;
    }
  }

  lemma LeafAncestor(s: Repository, dir: Path, p: Path, i: nat)
    requires CommitValid(s) && dir + p in s.tree && i < |p|
    ensures p[..i] in Checkout(s, dir) && Checkout(s, dir)[p[..i]].Dir?
  {
    CheckoutIsCommit(s, dir);
    assert (dir + p)[|dir|..] == p;
    assert p in CommitLeaves(s, dir);
    assert p in Checkout(s, dir);
    AncestorIsDir(Checkout(s, dir), p, i);
  }

  // ---------- A clean function that is not the commit ----------

  const SOURCE: Path := ["volcano", "functions", "f.py"]
  const LIBRARY_FILE: Path := ["volcano", "_l", "x"]
  const LEFT_OUT: Path := ["volcano", "functions", "_l", "j.log"]

  /** The rules of a project without a .gitignore. */
  function BuiltInRules(): Matcher {
    Combined(BuiltIn(), None)
  }

  lemma DotInEnd(s: string, end: string)
    requires '.' !in s && |end| > 0 && end[0] == '.'
    ensures !EndsWith(s, end)
  {
    if |end| <= |s| {
      assert s[|s| - |end|..][0] == s[|s| - |end|];
      assert s[|s| - |end|] in s;
    }
  }

  /** A name without a dot, as long as none that is ignored, is not ignored. */
  lemma PlainName(s: string)
    requires '.' !in s && |s| in {1, 2, 7}
    ensures !IgnoredName(s)
  {
    hide EndsWith, IgnoredWhole;
    NotListed(s);
    DotInEnd(s, ".pyc");
    DotInEnd(s, ".pyo");
    DotInEnd(s, ".rbc");
    DotInEnd(s, ".log");
    DotInEnd(s, ".swp");
    DotInEnd(s, ".swo");
  }

  lemma NotListed(s: string)
    requires '.' !in s && |s| in {1, 2, 7}
    ensures !IgnoredWhole(s)
  {
  }

  lemma LogFile()
    ensures IgnoredName("j.log")
  {
    assert "j.log"[1..] == ".log";
  }

  /** The rules leave out the log file, and not the library file. */
  lemma BuiltInRulesHere()
    ensures BuiltInRules()(LEFT_OUT, LEFT_OUT, false) && !BuiltInRules()(LIBRARY_FILE, LIBRARY_FILE, false)
  {
    BuiltInHere();
    hide BuiltIn;
  }

  lemma BuiltInHere()
    ensures BuiltIn()(LEFT_OUT) && !BuiltIn()(LIBRARY_FILE)
  {
    hide IgnoredName;
    LogFile();
    PlainName("volcano");
    PlainName("_l");
    PlainName("x");
    assert IgnoredName(LEFT_OUT[3]);
    assert forall i | 0 <= i < |LIBRARY_FILE| :: LIBRARY_FILE[i] in ["volcano", "_l", "x"];
  }

  /** No .gitignore is in a project that holds only those two. */
  lemma NoGitignore(t: Tree)
    requires forall q <- t :: q <= SOURCE || q <= LIBRARY_FILE
    ensures Gitignore() !in t && Gitignore() !in {SOURCE, LIBRARY_FILE, LEFT_OUT}
  {
    assert Gitignore()[0] != SOURCE[0] && Gitignore()[0] != LEFT_OUT[0];
  }

  function Info(): SourceInfo {
    SourceInfo(SOURCE, false, "main.py", [])
  }

  function Main(): (a: Path)
    ensures |a| == 1
  {
    ["main.py"]
  }

  lemma MainIsSafe()
    ensures SafeArchivePath("main.py") == Some(Main())
  {
    SplitOne("main.py", '/');
    assert DropEmpty(["main.py"]) == ["main.py"];
  }

  lemma InfoIsPlain()
    ensures Scanned(Info()) && NamesApart(Info()) && Info().path == SOURCE && !Info().isDir
    ensures SafeManifests(Info().manifests) == [] && EntrypointOf(Info()) == Main()
  {
    hide SafeArchivePath, SharedLibrary, Main;
    MainIsSafe();
  }

  /** The project directory that holds the files p and w only. */
  lemma TwoFiles(p: Path, w: Path) returns (t: Tree)
    requires p != [] && w != [] && !(p < w) && !(w < p)
    ensures Worktree.Valid(t)
    ensures forall q :: IsFile(t, q) <==> q in {p, w}
    ensures forall q <- t :: q <= p || q <= w
  {
    hide Grown, Files, Worktree.Valid, IsFile;
    OnlyFiles(Empty({p, w}));
    t := Grown(Files(Empty({p, w})));
  }

  /** The worktree holds the function and a file of a library. */
  lemma LostLibrary() returns (y: Project)
    ensures y.Valid() && y.matcher == BuiltInRules() && y.info == Info()
    ensures forall q :: IsFile(y.tree, q) <==> q in {SOURCE, LIBRARY_FILE}
    ensures forall n :: n !in FunctionsLibs(y.libs)
    ensures forall q <- y.tree :: q <= SOURCE || q <= LIBRARY_FILE
  {
    hide BuiltInRules, IgnoredName, Gitignore, Info;
    InfoIsPlain();
    assert SOURCE[1] != LIBRARY_FILE[1];
    var t := TwoFiles(SOURCE, LIBRARY_FILE);
    assert IsFile(t, SOURCE);
    AncestorIsDir(t, SOURCE, 2);
    assert FUNCTIONS == SOURCE[..2] && FUNCTIONS < SOURCE;
    var libs := ListAll(LibrariesByName(t));
    y := Project(t, BuiltInRules(), Info(), libs);
    forall n
      ensures n !in FunctionsLibs(y.libs)
    {
      FunctionsLibsAreRoots(y, n);
      var root := FUNCTIONS + n;
      assert LIBRARY_FILE[1] != root[1];
      assert root <= SOURCE && |root| == 3 ==> root[2] == SOURCE[2];
    }
  }

  lemma SourceRole(r: Rules)
    requires !r.isDir && r.source == SOURCE && r.entrypoint == Main() && r.manifests == []
    ensures Roles(r, SOURCE) == [Role(Main(), 0)]
  {
    assert SharedLibrary(SOURCE).None? by {
      assert FUNCTIONS < SOURCE && !Underscored(SOURCE[2]);
    }
  }

  lemma OnlyFilesSelected(y: Project)
    requires y.Valid()
    ensures forall q <- y.Selection().Values :: IsFile(y.tree, q)
  {
    forall q | q in y.Selection().Values
      ensures IsFile(y.tree, q)
    {
      var c :| c in y.Selection() && y.Selection()[c] == q;
      var j := SelectedIsWritten(y, c);
    }
  }

  lemma Both(selected: set<Path>, p: Path, w: Path)
    requires p in selected && w in selected && forall q <- selected :: q in {p, w}
    ensures selected == {p, w}
  {
  }

  /** Two files that share no archive path are both written, and nothing else is. */
  lemma BothWritten(y: Project, p: Path, a: Path, k: nat, w: Path, b: Path, l: nat)
    requires y.Valid() && forall q :: IsFile(y.tree, q) <==> q in {p, w}
    requires Plays(y.Rules(), p, a, k) && forall j: nat :: !Plays(y.Rules(), w, a, j)
    requires Plays(y.Rules(), w, b, l) && forall j: nat :: !Plays(y.Rules(), p, b, j)
    ensures y.Selection().Values == {p, w}
  {
    ButWritten(y, p, a, k);
    ButWritten(y, w, b, l);
    OnlyFilesSelected(y);
    Both(y.Selection().Values, p, w);
  }

  /** Packaging it writes both files. */
  lemma WorktreeSelection(y: Project, r: Rules)
    requires y.Valid() && y.matcher == BuiltInRules() && y.info == Info() && r == y.Rules()
    requires forall q :: IsFile(y.tree, q) <==> q in {SOURCE, LIBRARY_FILE}
    requires forall n :: n !in FunctionsLibs(y.libs)
    ensures y.Selection().Values == {SOURCE, LIBRARY_FILE}
  {
    hide BuiltInRules, IgnoredName, Gitignore, Info, Main, Worktree.Valid, Lists, Selection, SharedLibrary,
         LibraryKeeps;
    InfoIsPlain();
    SourceRole(r);
    LibraryFileRoles(r);
    hide FunctionRole, ManifestRoles, LibraryRole, Roles, Plays, IsFile;
    PlaysOnly(r, SOURCE, Main(), 0, ["_l", "x"]);
    PlaysOnly(r, LIBRARY_FILE, ["_l", "x"], PRIORITY_ELSEWHERE_LIB, Main());
    BothWritten(y, SOURCE, Main(), 0, LIBRARY_FILE, ["_l", "x"], PRIORITY_ELSEWHERE_LIB);
  }

  lemma PlaysOnly(r: Rules, p: Path, a: Path, k: nat, b: Path)
    requires Roles(r, p) == [Role(a, k)] && |a| != |b|
    ensures Plays(r, p, a, k) && forall j: nat :: !Plays(r, p, b, j)
  {
  }

  lemma LibraryFileRoles(r: Rules)
    requires !r.isDir && r.source == SOURCE && r.manifests == []
    requires r.matcher == BuiltInRules() && ["_l"] !in r.functionsLibs
    ensures Roles(r, LIBRARY_FILE) == [Role(["_l", "x"], PRIORITY_ELSEWHERE_LIB)]
  {
    hide BuiltInRules, IgnoredName, LibraryRole, SharedLibrary;
    LibraryFileRole(r);
    assert FunctionRole(r, LIBRARY_FILE) == [] by {
      assert LIBRARY_FILE[1] != SOURCE[1];
    }
  }

  lemma LibraryFileRole(r: Rules)
    requires r.matcher == BuiltInRules() && ["_l"] !in r.functionsLibs
    ensures LibraryRole(r, LIBRARY_FILE) == [Role(["_l", "x"], PRIORITY_ELSEWHERE_LIB)] && Elsewhere(LIBRARY_FILE)
    ensures SharedLibrary(LIBRARY_FILE) == Some(LibraryRef(["_l"], ["volcano", "_l"]))
  {
    hide BuiltInRules, IgnoredName, Gitignore, Info;
    var p := LIBRARY_FILE;
    assert !(FUNCTIONS < p) by {
      assert p[1] != FUNCTIONS[1];
    }
    assert Underscored(p[1]) && FirstUnderscored(p, 1) == 1;
    assert p[1..2] == ["_l"] && p[..2] == ["volcano", "_l"];
    assert ["_l"] + p[2..] == ["_l", "x"];
    BuiltInRulesHere();
    assert p[0..] == p;
  }

  /** A committed file the ignore rules leave out has no role and took no library's place. */
  lemma LeftOutRole(r: Rules)
    requires !r.isDir && r.source == SOURCE && r.manifests == [] && r.matcher == BuiltInRules()
    ensures Roles(r, LEFT_OUT) == [] && ReplacedBy(r, LEFT_OUT) == None
  {
    hide BuiltInRules, IgnoredName, Gitignore, Info;
    var p := LEFT_OUT;
    assert FUNCTIONS < p && Underscored(p[2]) && p[..3] < p;
    assert SharedLibrary(p) == Some(LibraryRef(["_l"], p[..3]));
    assert p != SOURCE;
    BuiltInRulesHere();
    assert p[0..] == p;
  }

  // ---------- Committing what was packaged ----------

  const MODE_FILE := "100644"

  lemma {:induction false} ListIndex(tree: map<Path, Entry>, paths: set<Path>) returns (index: seq<IndexRecord>)
    requires paths <= tree.Keys
    ensures forall rec <- index ::
              rec.path in tree && rec == IndexRecord(tree[rec.path].mode, tree[rec.path].blob, "0", rec.path)
    ensures Listed(index) == paths
  {
    if paths == {} {
      return [];
    }
    var p :| p in paths;
    var rest := ListIndex(tree, paths - {p});
    index := [IndexRecord(tree[p].mode, tree[p].blob, "0", p)] + rest;
    assert Listed(index) == {p} + Listed(rest) by {
      assert forall rec :: rec in index <==> rec == index[0] || rec in rest;
    }
  }

  lemma {:induction false} ListUploads(y: Project, disk: Disk, paths: set<Path>) returns (files: seq<InputFile>)
    requires forall p <- paths :: IsFile(y.tree, p)
    ensures (set f | f in files :: f.path) == paths
    ensures forall f <- files :: IsFile(y.tree, f.path)
                                 && f.file == BlobFile.Recorded(disk.sha1, disk.sha256, y.tree[f.path].content)
  {
    hide BlobFile.Recorded;
    if paths == {} {
      return [];
    }
    var p :| p in paths;
    var rest := ListUploads(y, disk, paths - {p});
    var first := InputFile(p, BlobFile.Recorded(disk.sha1, disk.sha256, y.tree[p].content));
    files := [first] + rest;
    assert (set f | f in files :: f.path) == {p} + (set f | f in rest :: f.path) by {
      assert forall f :: f in files <==> f == first || f in rest;
    }
  }

  /** The commit that holds what packaging a project wrote, and some other files. */
  lemma CommitWith(y: Project, disk: Disk, selected: set<Path>, extra: set<Path>) returns (s: Repository)
    requires forall p <- selected :: IsFile(y.tree, p)
    ensures s.tree.Keys == selected + extra && s.gitlinks == map[] && s.git.untracked == Some([])
    ensures s.git.index.Some? && forall p :: !IsStaged(s, s.git.index.value, p)
    ensures forall p <- s.tree :: s.tree[p].mode == MODE_FILE
    ensures forall p <- selected :: IsFile(y.tree, p) && s.tree[p].blob == BlobFile.BlobID(disk.sha1, y.tree[p].content)
  {
    var tree := map p | p in selected + extra ::
      Entry(MODE_FILE, BlobFile.BlobID(disk.sha1, if p in selected then y.tree[p].content else []));
    var index := ListIndex(tree, tree.Keys);
    s := Repository(tree, map[], true, false, Git(None, Some(index), Some([]), None));
    forall p
      ensures !IsStaged(s, index, p)
    {
      if p in tree {
        assert p in Listed(index);
      }
    }
  }

  /** What deploying that project describes, from a repository it is the root of. */
  lemma UploadOf(y: Project, disk: Disk) returns (x: UploadInputs)
    requires y.Valid()
    requires disk.lstat(Gitignore()) == if Gitignore() in y.tree then Some(y.tree[Gitignore()]) else None
    ensures Describes(x, y, [], disk) && x.paths == [Gitignore()] && x.roots == [y.info.path]
    ensures forall p :: x.placed(p)
  {
    hide BuiltInRules, IgnoredName, Gitignore, Info, InputPath, Worktree.Valid, Lists, BlobFile.Recorded;
    OnlyFilesSelected(y);
    var files := ListUploads(y, disk, y.Selection().Values);
    var r, sel := y.Rules(), y.Selection();
    x := UploadInputs(Some([]), files, p => InputPath(r, sel, p).feeds, p => InputPath(r, sel, p).shadowedBy,
                      [y.info.path], [Gitignore()], _ => true);
    assert [] + Gitignore() == Gitignore();
  }

  lemma {:induction false} AllCommitted(s: Repository, files: seq<InputFile>)
    requires forall f <- files :: f.path in s.tree
    ensures UncommittedFiles(s, [], files) == []
  {
    if files != [] {
      assert [] + files[|files| - 1].path == files[|files| - 1].path;
      AllCommitted(s, files[..|files| - 1]);
    }
  }

  /** Files that have no role and lost none to a library do not stand in the way of clean. */
  lemma ExtraMatches(s: Repository, disk: Disk, x: UploadInputs, y: Project, p: Path)
    requires y.Valid() && Describes(x, y, [], disk) && x.paths == [Gitignore()] && p in s.tree && p != []
    requires p != Gitignore()
    requires Roles(y.Rules(), p) == [] && ReplacedBy(y.Rules(), p).None?
    ensures InputMatches(s, disk, [], x, p)
  {
    hide BlobFile.Recorded, Worktree.Valid, Lists, LibrariesByName, Selection, Roles, HasContent, EntryClean, Gitignore,
         IsReplaced;
    assert [] + p == p;
    NoRoleNotFed(s, disk, x, y, [], p);
    assert UnderDir([], p) == p;
    assert InputPath(y.Rules(), y.Selection(), p).shadowedBy.None?;
  }

  lemma UploadMatches(s: Repository, disk: Disk, x: UploadInputs, y: Project, p: Path)
    requires y.Valid() && Describes(x, y, [], disk) && p in s.tree && IsFile(y.tree, p)
    requires p in y.Selection().Values && s.tree[p] == Entry(MODE_FILE, BlobFile.BlobID(disk.sha1, y.tree[p].content))
    ensures InputMatches(s, disk, [], x, p)
  {
    assert [] + p == p;
    var f :| f in x.files && f.path == p;
    ReadAt(s, [], x.files, p);
    assert InputFile(p, Read(s, [], x.files)[p]) in x.files;
  }

  lemma CommitIsClean(s: Repository, disk: Disk, x: UploadInputs, y: Project)
    requires Unstaged(s, disk, x, y)
    requires forall p <- s.tree :: InputMatches(s, disk, [], x, p)
    ensures IsClean(s, disk, x) && Uncommitted(s, disk, [], x) == []
  {
    AllCommitted(s, x.files);
    assert [] + Gitignore() == Gitignore();
    assert x.paths[..0] == [] && UncommittedPaths(s, disk, [], []) == [];
  }

  ghost predicate Unstaged(s: Repository, disk: Disk, x: UploadInputs, y: Project) {
    && x.dir == Some([]) && x.paths == [Gitignore()] && disk.lstat(Gitignore()).None? && (forall p :: x.placed(p))
    && (forall f <- x.files :: f.path in s.tree)
    && s.gitlinks == map[] && s.git.untracked == Some([])
    && s.git.index.Some? && forall p :: !IsStaged(s, s.git.index.value, p)
  }

  /** A commit of what packaging wrote, and of files it has no role for, makes the function clean. */
  lemma CleanWithExtra(disk: Disk, y: Project, selected: set<Path>, extra: set<Path>)
    returns (s: Repository, x: UploadInputs)
    requires y.Valid() && y.Selection().Values == selected && selected !! extra && [] !in extra
    requires Gitignore() !in y.tree && Gitignore() !in extra && disk.lstat(Gitignore()).None?
    requires forall p <- extra :: Roles(y.Rules(), p) == [] && ReplacedBy(y.Rules(), p).None?
    ensures s.tree.Keys == selected + extra && s.gitlinks == map[]
    ensures Describes(x, y, [], disk) && IsClean(s, disk, x) && Uncommitted(s, disk, [], x) == []
    ensures x.paths == [Gitignore()]
  {
    OnlyFilesSelected(y);
    s := CommitWith(y, disk, selected, extra);
    x := UploadOf(y, disk);
    forall p | p in s.tree
      ensures InputMatches(s, disk, [], x, p)
    {
      if p in extra {
        ExtraMatches(s, disk, x, y, p);
      } else {
        UploadMatches(s, disk, x, y, p);
      }
    }
    UploadsCommitted(s, disk, x, y);
    CommitIsClean(s, disk, x, y);
  }

  lemma UploadsCommitted(s: Repository, disk: Disk, x: UploadInputs, y: Project)
    requires y.Valid() && Describes(x, y, [], disk) && y.Selection().Values <= s.tree.Keys
    ensures forall f <- x.files :: f.path in s.tree
  {
    forall f | f in x.files
      ensures f.path in s.tree
    {
      assert f.path in set g | g in x.files :: g.path;
    }
  }

  lemma CleanThree(disk: Disk, y: Project, p: Path, w: Path, j: Path) returns (s: Repository, x: UploadInputs)
    requires y.Valid() && y.Selection().Values == {p, w} && j !in {p, w} && j != []
    requires Gitignore() !in y.tree && Gitignore() != j && disk.lstat(Gitignore()).None?
    requires Roles(y.Rules(), j) == [] && ReplacedBy(y.Rules(), j).None?
    ensures s.tree.Keys == {p, w, j} && s.gitlinks == map[]
    ensures Describes(x, y, [], disk) && IsClean(s, disk, x) && Uncommitted(s, disk, [], x) == []
    ensures x.paths == [Gitignore()]
  {
    hide Describes, IsClean, Uncommitted, Roles, ReplacedBy;
    s, x := CleanWithExtra(disk, y, {p, w}, {j});
  }

  /** The function is clean when the commit holds its two files and the one the ignore rules leave out. */
  lemma CleanWorktree(disk: Disk, y: Project, r: Rules) returns (s: Repository, x: UploadInputs)
    requires y.Valid() && y.matcher == BuiltInRules() && y.info == Info() && r == y.Rules()
    requires y.Selection().Values == {SOURCE, LIBRARY_FILE} && Gitignore() !in y.tree && disk.lstat(Gitignore()).None?
    ensures s.tree.Keys == {SOURCE, LIBRARY_FILE, LEFT_OUT} && s.gitlinks == map[]
    ensures Describes(x, y, [], disk) && IsClean(s, disk, x) && Uncommitted(s, disk, [], x) == []
    ensures x.paths == [Gitignore()]
  {
    assert r.manifests == [] by {
      InfoIsPlain();
    }
    LeftOutRole(r);
    assert SOURCE[2] != LEFT_OUT[2] && LIBRARY_FILE[1] != LEFT_OUT[1];
    s, x := CleanThree(disk, y, SOURCE, LIBRARY_FILE, LEFT_OUT);
  }

  lemma ThreeFilesApart(s: Repository)
    requires s.tree.Keys == {SOURCE, LIBRARY_FILE, LEFT_OUT} && s.gitlinks == map[]
    ensures CommitValid(s)
  {
    var a, b, c := SOURCE, LIBRARY_FILE, LEFT_OUT;
    assert a[2] != c[2] && b[1] != c[1] && a[1] != b[1];
    assert !(a < b) && !(b < a) && !(a < c) && !(c < a) && !(b < c) && !(c < b);
  }

  /** The checkout has the library root the worktree lost. */
  lemma LostRoot(s: Repository) returns (t: Tree)
    requires CommitValid(s) && SOURCE in s.tree && LEFT_OUT in s.tree
    ensures t == Checkout(s, []) && Worktree.Valid(t) && FunctionsIsNoFile(t)
    ensures IsRoot(t, FUNCTIONS, FUNCTIONS + ["_l"])
  {
    hide CommitValid, Worktree.Valid, Checkout, IsRoot;
    CheckoutIsCommit(s, []);
    t := Checkout(s, []);
    AtTop(SOURCE);
    LeafAncestor(s, [], SOURCE, 2);
    AtTop(LEFT_OUT);
    LeafAncestor(s, [], LEFT_OUT, 3);
    assert SOURCE[..2] == FUNCTIONS && LEFT_OUT[..3] == FUNCTIONS + ["_l"];
    UnderscoredRoot(t, "_l");
  }

  lemma AtTop(p: Path)
    ensures [] + p == p
  {
  }

  lemma UnderscoredRoot(t: Tree, name: string)
    requires Underscored(name) && FUNCTIONS + [name] in t && t[FUNCTIONS + [name]].Dir?
    ensures IsRoot(t, FUNCTIONS, FUNCTIONS + [name])
  {
  }

  lemma CheckoutOf(s: Repository, t: Tree) returns (z: Project)
    requires Worktree.Valid(t) && FunctionsIsNoFile(t) && IsRoot(t, FUNCTIONS, FUNCTIONS + ["_l"])
    ensures z.Valid() && z.tree == t && z.matcher == BuiltInRules() && z.info == Info()
    ensures ["_l"] in FunctionsLibs(z.libs)
  {
    hide BuiltInRules, IgnoredName, Info, Main, Worktree.Valid, IsRoot, FunctionsIsNoFile, SharedLibrary, NamesApart,
         FunctionsLibs;
    InfoIsPlain();
    var libs := ListAll(LibrariesByName(t));
    z := Project(t, BuiltInRules(), Info(), libs);
    FunctionsLibsAreRoots(z, ["_l"]);
  }

  /** The clean function, and its commit. */
  lemma CleanCommit(disk: Disk) returns (s: Repository, x: UploadInputs, y: Project)
    requires disk.lstat(Gitignore()).None?
    ensures x.paths == [Gitignore()] && Gitignore() !in s.tree && y.matcher == BuiltInRules() && y.info == Info()
    ensures y.Valid() && ["_l"] !in FunctionsLibs(y.libs) && LIBRARY_FILE in y.Selection().Values
    ensures LIBRARY_FILE in s.tree
    ensures Describes(x, y, [], disk) && IsClean(s, disk, x) && Uncommitted(s, disk, [], x) == []
    ensures CommitValid(s) && SOURCE in s.tree && LEFT_OUT in s.tree && IsFile(y.tree, y.info.path)
  {
    hide BuiltInRules, IgnoredName, Gitignore, Info, IsClean, Uncommitted, Describes, Worktree.Valid, Lists,
         CommitValid, Selection, FunctionsLibs;
    InfoIsPlain();
    y := LostLibrary();
    NoGitignore(y.tree);
    WorktreeSelection(y, y.Rules());
    s, x := CleanWorktree(disk, y, y.Rules());
    ThreeFilesApart(s);
  }

  /** And a checkout of the commit, which has the library. */
  lemma CleanExample(disk: Disk) returns (s: Repository, x: UploadInputs, y: Project, z: Project)
    requires disk.lstat(Gitignore()).None?
    ensures x.paths == [Gitignore()] && Gitignore() !in s.tree && y.matcher == BuiltInRules()
    ensures Clean(s, disk, x, y, z, []) && Uncommitted(s, disk, [], x) == []
    ensures NamesApart(y.info) && IsFile(y.tree, y.info.path)
    ensures ["_l"] in FunctionsLibs(z.libs) && ["_l"] !in FunctionsLibs(y.libs)
    ensures LIBRARY_FILE in y.Selection().Values && LIBRARY_FILE in s.tree && SameRules(y, z)
  {
    hide BuiltInRules, IgnoredName, Gitignore, Info, IsClean, Uncommitted, Describes, Worktree.Valid, Lists,
         CommitValid, SharedLibrary, LibraryRole, Selection, FunctionsLibs, IsRoot, FunctionsIsNoFile, Checkout, Main,
         NamesApart;
    InfoIsPlain();
    s, x, y := CleanCommit(disk);
    var t := LostRoot(s);
    z := CheckoutOf(s, t);
  }

  /**
   A function can be clean and yet not the commit: the commit holds a library in volcano/functions that is but a log
   file, which no package includes; the worktree has lost it; and so a checkout replaces the library of an
   upload. Here for any hashes, and without a .gitignore on disk or in the commit.
   */
  lemma CleanButNotTheCommit(disk: Disk) returns (s: Repository, x: UploadInputs, y: Project, z: Project)
    requires disk.lstat(Gitignore()).None?
    ensures x.paths == [Gitignore()] && Gitignore() !in s.tree && y.matcher == BuiltInRules()
    ensures Clean(s, disk, x, y, z, []) && Uncommitted(s, disk, [], x) == []
    ensures !CommittedAgree(s, y, z, []) && z.Selection() != y.Selection()
  {
    hide BuiltInRules, IgnoredName, Gitignore, Info, IsClean, Uncommitted, Describes, Worktree.Valid, Lists,
         CommitValid, LibraryRole, Selection, FunctionsLibs, NamesApart, Checkout, NoneReplaced, CommittedAgree;
    s, x, y, z := CleanExample(disk);
    LibraryFileRole(y.Rules());
    LibraryReplaced(s, y, z);
    CleanBySameRules(s, disk, x, y, z, []);
    CleanIsTheCommit(s, disk, x, y, z, []);
  }

  lemma LibraryReplaced(s: Repository, y: Project, z: Project)
    requires y.Valid() && z.Valid() && LIBRARY_FILE in y.Selection().Values && Elsewhere(LIBRARY_FILE)
    requires SharedLibrary(LIBRARY_FILE) == Some(LibraryRef(["_l"], ["volcano", "_l"]))
    requires ["_l"] in FunctionsLibs(z.libs)
    requires LIBRARY_FILE in s.tree
    ensures !NoneReplaced(s, y, z, [])
  {
    assert [] + LIBRARY_FILE == LIBRARY_FILE;
    assert Replaced(z.Rules(), SharedLibrary(LIBRARY_FILE).value);
  }
}
