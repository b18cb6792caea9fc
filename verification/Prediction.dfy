/**
 The path-only prediction refines packaging: PackageSource writes, at each archive path, the regular file
 of least priority there by classify's rules, so inputPaths says a file on disk feeds the function exactly
 when packaging wrote it.
 */
module Prediction {
  import opened Worktree
  import opened DirectoryReader
  import opened Scanner
  import opened Packager
  import opened Inputs

  /** A function in a project, with the libraries FindSharedLibraries found there. */
  datatype Project = Project(tree: Tree, matcher: Matcher, info: SourceInfo, libs: seq<Library>) {
    /** The function lies directly in volcano/functions, or in a directory there. */
    ghost predicate Valid() {
      && Worktree.Valid(tree) && FunctionsIsNoFile(tree) && Lists(libs, LibrariesByName(tree))
      && Scanned(info)
    }

    function Rules(): Rules
      requires info.path != []
    {
      RulesFor(matcher, info, libs)
    }

    function Selection(): map<Path, Path>
      requires info.path != []
    {
      Packager.Selection(tree, matcher, info, libs)
    }
  }

  predicate Scanned(info: SourceInfo) {
    && FUNCTIONS < info.path && !Underscored(info.path[2])
    && |info.path| == if info.isDir then 4 else 3
  }

  /** The file at p would be written at archive path a with priority pr. */
  ghost predicate Plays(r: Rules, p: Path, a: Path, pr: nat) {
    Role(a, pr) in Roles(r, p)
  }

  /** p is the file on disk of least priority at a, and no other ties with it. */
  ghost predicate Wins(t: Tree, r: Rules, p: Path, a: Path, pr: nat) {
    && IsFile(t, p) && Plays(r, p, a, pr)
    && forall q, k | IsFile(t, q) && Plays(r, q, a, k) :: pr <= k && (pr == k ==> q == p)
  }

  // ---------- The function's own files ----------

  lemma FunctionDirAt(t: Tree, r: Rules, a: Path, p: Path)
    requires r.isDir && r.sourceDir != []
    ensures var layer := Shifted(KeptUnder(Walk(t, r.matcher, r.sourceDir, r.sourceDir), r.sourceDir), r.sourceDir, []);
            a in layer && layer[a] == p <==> IsFile(t, p) && Role(a, PRIORITY_FUNCTION) in FunctionRole(r, p)
  {
    var dir := r.sourceDir;
    ShiftedAt(KeptUnder(Walk(t, r.matcher, dir, dir), dir), dir, [], a);
    assert (dir + a)[|dir|..] == a && a[0..] == a;
    if dir < p && p[|dir|..] == a {
      assert dir + a == p;
    }
    if a == [] {
      assert dir + a == dir;
    }
  }

  lemma FunctionLayerAt(x: Project, a: Path, p: Path)
    requires x.Valid()
    ensures var layer := FunctionLayer(x.tree, x.matcher, x.info);
            a in layer && layer[a] == p
            <==> IsFile(x.tree, p) && Role(a, PRIORITY_FUNCTION) in FunctionRole(x.Rules(), p)
  {
    if x.info.isDir {
      FunctionDirAt(x.tree, x.Rules(), a, p);
    }
  }

  // ---------- The manifests ----------

  /** A file called n in d, at or above the function's directory, is a manifest archived at a. */
  ghost predicate ManifestPlace(sourceDir: Path, names: seq<Path>, d: Path, n: Path, a: Path) {
    d <= sourceDir && n in names && ManifestArchive(sourceDir, d, n) == a
  }

  ghost predicate ManifestAt(t: Tree, sourceDir: Path, names: seq<Path>, d: Path, n: Path, a: Path) {
    ManifestPlace(sourceDir, names, d, n, a) && IsFile(t, d + n)
  }

  lemma {:induction false} ManifestLayerAt(t: Tree, sourceDir: Path, d: Path, names: seq<Path>, a: Path)
    requires d <= sourceDir
    ensures var layer := ManifestLayer(t, sourceDir, d, names);
            var n := if d == sourceDir then a else if d <= a then a[|d|..] else [];
            && (a in layer ==> ManifestAt(t, sourceDir, names, d, n, a) && layer[a] == d + n)
            && ((exists n :: ManifestAt(t, sourceDir, names, d, n, a)) ==> a in layer)
  {
    if names != [] {
      ManifestLayerAt(t, sourceDir, d, names[1..], a);
      assert names == [names[0]] + names[1..];
      if d != sourceDir {
        assert (d + names[0])[|d|..] == names[0];
      }
      if n :| ManifestAt(t, sourceDir, names, d, n, a) {
        if n != names[0] {
          assert ManifestAt(t, sourceDir, names[1..], d, n, a);
        }
      }
    }
  }

  /** The manifest at a in the directories from d up is the nearest of those that would be there. */
  lemma {:induction false} NearestManifest(t: Tree, sourceDir: Path, d: Path, names: seq<Path>, a: Path)
    returns (near: Path, name: Path)
    requires d <= sourceDir
    ensures var layers := ManifestLayers(t, sourceDir, d, names);
            && (a in layers ==> near <= d && ManifestAt(t, sourceDir, names, near, name, a) && layers[a] == near + name)
            && (forall d', n | d' <= d && ManifestAt(t, sourceDir, names, d', n, a) :: a in layers && |d'| <= |near|)
    decreases |d|
  {
    var layer := ManifestLayer(t, sourceDir, d, names);
    ManifestLayerAt(t, sourceDir, d, names, a);
    if a in layer {
      near, name := d, if d == sourceDir then a else a[|d|..];
    } else if d == [] {
      near, name := [], [];
    } else {
      near, name := NearestManifest(t, sourceDir, Parent(d), names, a);
      forall d', n | d' <= d && ManifestAt(t, sourceDir, names, d', n, a)
        ensures d' <= Parent(d)
      {
        assert d' != d;
      }
    }
  }

  function ManifestPriority(sourceDir: Path, d: Path): nat
    requires d <= sourceDir
  {
    PRIORITY_MANIFEST + |sourceDir| - |d|
  }

  lemma {:induction false} RoleOfManifest(r: Rules, names: seq<Path>, d: Path, n: Path, a: Path)
    requires ManifestPlace(r.sourceDir, names, d, n, a) && n != []
    ensures Role(a, ManifestPriority(r.sourceDir, d)) in ManifestRoles(r, names, d + n)
  {
    assert (d + n)[|d + n| - |n|..] == n && (d + n)[..|d + n| - |n|] == d;
    if n != names[0] {
      assert n in names[1..];
      RoleOfManifest(r, names[1..], d, n, a);
    }
  }

  lemma {:induction false} ManifestOfRole(r: Rules, names: seq<Path>, p: Path, a: Path, pr: nat)
    returns (d: Path, n: Path)
    requires Role(a, pr) in ManifestRoles(r, names, p)
    ensures ManifestPlace(r.sourceDir, names, d, n, a) && p == d + n && pr == ManifestPriority(r.sourceDir, d)
  {
    if Role(a, pr) in ManifestRole(r, names[0], p) {
      n := names[0];
      d := p[..|p| - |n|];
    } else {
      d, n := ManifestOfRole(r, names[1..], p, a, pr);
      assert names == [names[0]] + names[1..];
    }
  }

  // ---------- The shared libraries ----------

  function DirOf(ref: LibraryRef): Path {
    if FUNCTIONS < ref.root then FUNCTIONS else VOLCANO
  }

  lemma LibraryNamed(t: Tree, n: Path)
    ensures n in LibrariesOf(t, VOLCANO) <==> IsRoot(t, VOLCANO, VOLCANO + n)
    ensures n in LibrariesOf(t, FUNCTIONS) <==> IsRoot(t, FUNCTIONS, FUNCTIONS + n)
  {
    NameOfRoot(VOLCANO, Roots(t, VOLCANO, VOLCANO), n);
    NameOfRoot(FUNCTIONS, Roots(t, FUNCTIONS, FUNCTIONS), n);
  }

  /** The names packaging lets replace libraries elsewhere are those of the roots in volcano/functions. */
  lemma FunctionsLibsAreRoots(x: Project, n: Path)
    requires x.Valid()
    ensures n in FunctionsLibs(x.libs) <==> IsRoot(x.tree, FUNCTIONS, FUNCTIONS + n)
  {
    var byName := LibrariesByName(x.tree);
    LibraryNamed(x.tree, n);
    if n in FunctionsLibs(x.libs) {
      var lib :| lib in x.libs && lib.path != [] && Parent(lib.path) == FUNCTIONS && lib.name == n;
      assert byName[n] == lib;
    }
    if IsRoot(x.tree, FUNCTIONS, FUNCTIONS + n) {
      assert byName[n] in x.libs && byName[n].path == FUNCTIONS + n;
      assert Parent(FUNCTIONS + n) == FUNCTIONS;
    }
  }

  /** A file's library is the one of its name unless one in volcano/functions replaced it. */
  lemma LibraryOfFile(x: Project, p: Path)
    requires x.Valid() && IsFile(x.tree, p) && SharedLibrary(p).Some?
    ensures var ref, byName := SharedLibrary(p).value, LibrariesByName(x.tree);
            && ref.name in byName && IsRoot(x.tree, DirOf(ref), ref.root)
            && (byName[ref.name].path == ref.root <==> !Replaced(x.Rules(), ref))
  {
    PathTestIsWalk(x.tree, p);
    var ref := SharedLibrary(p).value;
    LibraryNamed(x.tree, ref.name);
    FunctionsLibsAreRoots(x, ref.name);
  }

  lemma LibraryFileAt(t: Tree, r: Rules, lib: Library, a: Path, p: Path)
    requires Worktree.Valid(t) && lib.path in t && lib.isDir == t[lib.path].Dir?
    ensures var files := LibraryFiles(t, r.matcher, lib);
            a in files && files[a] == p <==>
              && IsFile(t, p) && lib.path <= p && LibraryKeeps(r, LibraryRef(lib.name, lib.path), p)
              && a == lib.name + p[|lib.path|..]
  {
    var files := LibraryFiles(t, r.matcher, lib);
    if lib.isDir {
      var kept := KeptUnder(Walk(t, r.matcher, lib.path, []), lib.path);
      ShiftedAt(kept, lib.path, lib.name, a);
      if a in files && files[a] == p {
        assert p in kept && p == lib.path + a[|lib.name|..];
        assert a == lib.name + a[|lib.name|..] && p[|lib.path|..] == a[|lib.name|..];
      }
      if IsFile(t, p) && lib.path <= p && LibraryKeeps(r, LibraryRef(lib.name, lib.path), p) {
        assert lib.path != p && p in kept;
        assert (lib.name + p[|lib.path|..])[|lib.name|..] == p[|lib.path|..];
        assert lib.path + p[|lib.path|..] == p;
      }
    } else {
      if lib.path <= p && p in t {
        NothingBelow(t, lib.path, p);
      }
      assert lib.name + lib.path[|lib.path|..] == lib.name;
    }
  }

  lemma {:induction false} LibraryLayerFrom(t: Tree, m: Matcher, libs: seq<Library>, a: Path)
    ensures var layer := LibraryLayer(t, m, libs);
            && (a in layer ==>
                  exists lib :: lib in libs && a in LibraryFiles(t, m, lib) && LibraryFiles(t, m, lib)[a] == layer[a])
            && (forall lib <- libs :: a in LibraryFiles(t, m, lib) ==> a in layer)
  {
    if libs != [] {
      LibraryLayerFrom(t, m, libs[1..], a);
      assert libs == [libs[0]] + libs[1..];
    }
  }

  /** A file with a library role is in a library that was found. */
  lemma LibraryOfRole(x: Project, p: Path, a: Path, k: nat) returns (lib: Library)
    requires x.Valid() && IsFile(x.tree, p) && Role(a, k) in LibraryRole(x.Rules(), p)
    ensures lib in x.libs
    ensures var files := LibraryFiles(x.tree, x.matcher, lib); a in files && files[a] == p
  {
    var ref := SharedLibrary(p).value;
    LibraryOfFile(x, p);
    lib := LibrariesByName(x.tree)[ref.name];
    LibraryFileAt(x.tree, x.Rules(), lib, a, p);
  }

  lemma LibraryIsRoot(x: Project, lib: Library)
    requires x.Valid() && lib in x.libs
    ensures lib.path in x.tree && lib.isDir == x.tree[lib.path].Dir? && lib == LibrariesByName(x.tree)[lib.name]
    ensures var dir := if FUNCTIONS < lib.path then FUNCTIONS else VOLCANO;
            IsRoot(x.tree, dir, lib.path) && lib.path == dir + lib.name
  {
    LibraryNamed(x.tree, lib.name);
    assert lib == LibrariesByName(x.tree)[lib.name];
  }

  /** A file added from a library that was found has a library role. */
  lemma RoleOfLibrary(x: Project, lib: Library, p: Path, a: Path) returns (k: nat)
    requires x.Valid() && lib in x.libs
    requires var files := LibraryFiles(x.tree, x.matcher, lib); a in files && files[a] == p
    ensures IsFile(x.tree, p) && k >= PRIORITY_FUNCTIONS_LIB && Role(a, k) in LibraryRole(x.Rules(), p)
  {
    LibraryIsRoot(x, lib);
    LibraryFileAt(x.tree, x.Rules(), lib, a, p);
    PathTestIsWalk(x.tree, p);
    var ref := SharedLibrary(p).value;
    assert ref.root == lib.path;
    assert DirOf(ref) + lib.name == DirOf(ref) + ref.name;
    assert ref.name == (DirOf(ref) + ref.name)[|DirOf(ref)|..] == lib.name;
    LibraryOfFile(x, p);
    k := if FUNCTIONS < ref.root then PRIORITY_FUNCTIONS_LIB else PRIORITY_ELSEWHERE_LIB;
  }

  lemma PathOfArchive(r: Rules, p: Path, a: Path, k: nat)
    requires Role(a, k) in LibraryRole(r, p)
    ensures p == DirOf(SharedLibrary(p).value) + a
    ensures k == if DirOf(SharedLibrary(p).value) == FUNCTIONS then PRIORITY_FUNCTIONS_LIB else PRIORITY_ELSEWHERE_LIB
  {
    var ref := SharedLibrary(p).value;
    assert a == ref.name + p[|ref.root|..];
    assert p == ref.root + p[|ref.root|..];
  }

  /** Kept files of the libraries found never share an archive path. */
  lemma LibraryArchivesDistinct(x: Project, p: Path, q: Path, a: Path, k: nat, l: nat)
    requires x.Valid() && IsFile(x.tree, p) && IsFile(x.tree, q)
    requires Role(a, k) in LibraryRole(x.Rules(), p) && Role(a, l) in LibraryRole(x.Rules(), q)
    ensures p == q
  {
    PathOfArchive(x.Rules(), p, a, k);
    PathOfArchive(x.Rules(), q, a, l);
    if DirOf(SharedLibrary(p).value) == FUNCTIONS {
      NameReplaced(x, p, a);
    }
    if DirOf(SharedLibrary(q).value) == FUNCTIONS {
      NameReplaced(x, q, a);
    }
  }

  /** A library in volcano/functions replaces the one elsewhere that would share an archive path with it. */
  lemma NameReplaced(x: Project, p: Path, a: Path)
    requires x.Valid() && IsFile(x.tree, p) && p == FUNCTIONS + a
    requires SharedLibrary(p).Some? && DirOf(SharedLibrary(p).value) == FUNCTIONS
    ensures LibraryRole(x.Rules(), VOLCANO + a) == []
  {
    hide Lists, LibrariesByName, SafeManifests, LibraryKeeps;
    var q := VOLCANO + a;
    assert a[0] == p[2] == q[1];
    assert !(FUNCTIONS < q) by {
      assert !Underscored(FUNCTIONS[1]);
    }
    assert FirstUnderscored(q, 1) == 1;
    assert q[1..2] == [a[0]];
    PathTestIsWalk(x.tree, p);
    assert p[..3] == FUNCTIONS + [a[0]];
    FunctionsLibsAreRoots(x, [a[0]]);
  }

  // ---------- Packaging writes the file of least priority ----------

  lemma {:induction false} SafeNamesNotEmpty(names: seq<string>)
    ensures [] !in SafeManifests(names)
  {
    if names != [] {
      SafeNamesNotEmpty(names[1..]);
    }
  }

  /** Every file on disk that plays at a leaves something selected there. */
  lemma SomethingWins(x: Project, p: Path, a: Path, k: nat)
    requires x.Valid() && IsFile(x.tree, p) && Plays(x.Rules(), p, a, k)
    ensures a in x.Selection()
    ensures k == 0 ==> x.Selection()[a] == p
  {
    var r := x.Rules();
    if Role(a, k) in FunctionRole(r, p) {
      FunctionLayerAt(x, a, p);
    } else if Role(a, k) in ManifestRoles(r, r.manifests, p) {
      var d, n := ManifestOfRole(r, r.manifests, p, a, k);
      assert ManifestAt(x.tree, r.sourceDir, r.manifests, d, n, a);
      var _, _ := NearestManifest(x.tree, r.sourceDir, r.sourceDir, r.manifests, a);
    } else {
      var lib := LibraryOfRole(x, p, a, k);
      LibraryLayerFrom(x.tree, x.matcher, x.libs, a);
    }
  }

  /** p is written at a by the layer of its priority pr, and no earlier layer has anything there. */
  ghost predicate Written(x: Project, p: Path, a: Path, pr: nat)
    requires x.Valid()
  {
    && IsFile(x.tree, p) && Plays(x.Rules(), p, a, pr)
    && (pr > 0 ==> a !in FunctionLayer(x.tree, x.matcher, x.info))
    && (0 < pr < PRIORITY_FUNCTIONS_LIB ==>
          exists d, n :: ManifestPlace(x.info.Dir(), x.Rules().manifests, d, n, a) && p == d + n && Nearest(x, d, a)
                         && pr == ManifestPriority(x.info.Dir(), d))
    && (pr >= PRIORITY_FUNCTIONS_LIB ==>
          && Role(a, pr) in LibraryRole(x.Rules(), p)
          && forall d, n :: !ManifestAt(x.tree, x.info.Dir(), x.Rules().manifests, d, n, a))
  }

  /** No manifest on disk archived at a is nearer the function than d. */
  ghost predicate Nearest(x: Project, d: Path, a: Path)
    requires x.info.path != []
  {
    forall d', n | ManifestAt(x.tree, x.info.Dir(), x.Rules().manifests, d', n, a) :: |d'| <= |d|
  }

  lemma SelectedIsWritten(x: Project, a: Path) returns (pr: nat)
    requires x.Valid() && a in x.Selection()
    ensures Written(x, x.Selection()[a], a, pr)
  {
    hide Worktree.Valid, Lists, LibrariesByName, FunctionRole, ManifestRoles, LibraryRole, Keeps, FunctionLayer,
         LibraryFiles, IsFile;
    var r, p := x.Rules(), x.Selection()[a];
    SafeNamesNotEmpty(x.info.manifests);
    FunctionLayerAt(x, a, p);
    if a in FunctionLayer(x.tree, x.matcher, x.info) {
      return 0;
    }
    var layers := ManifestLayers(x.tree, r.sourceDir, r.sourceDir, r.manifests);
    var d, n := NearestManifest(x.tree, r.sourceDir, r.sourceDir, r.manifests, a);
    if a in layers {
      RoleOfManifest(r, r.manifests, d, n, a);
      pr := ManifestPriority(r.sourceDir, d);
    } else {
      LibraryLayerFrom(x.tree, x.matcher, x.libs, a);
      var lib :| lib in x.libs && a in LibraryFiles(x.tree, x.matcher, lib)
                 && LibraryFiles(x.tree, x.matcher, lib)[a] == p;
      pr := RoleOfLibrary(x, lib, p, a);
    }
  }

  /** A role's priority tells which rule it comes from. */
  lemma PriorityTells(r: Rules, p: Path, a: Path, k: nat)
    requires Plays(r, p, a, k)
    ensures k == 0 ==> Role(a, k) in FunctionRole(r, p)
    ensures k > 0 ==> Role(a, k) !in FunctionRole(r, p)
  {
    if Role(a, k) in ManifestRoles(r, r.manifests, p) {
      var _, _ := ManifestOfRole(r, r.manifests, p, a, k);
    }
  }

  lemma BeatsFunctionRole(x: Project, p: Path, a: Path, pr: nat, q: Path)
    requires x.Valid() && Written(x, p, a, pr) && IsFile(x.tree, q) && Role(a, 0) in FunctionRole(x.Rules(), q)
    ensures pr == 0 && p == q
  {
    FunctionLayerAt(x, a, q);
    FunctionLayerAt(x, a, p);
    PriorityTells(x.Rules(), p, a, pr);
  }

  lemma BeatsManifest(x: Project, p: Path, a: Path, pr: nat, d: Path, n: Path)
    requires x.Valid() && Written(x, p, a, pr) && ManifestAt(x.tree, x.info.Dir(), x.Rules().manifests, d, n, a)
    ensures pr <= ManifestPriority(x.info.Dir(), d)
    ensures pr == ManifestPriority(x.info.Dir(), d) ==> p == d + n
  {
    var sourceDir, names := x.info.Dir(), x.Rules().manifests;
    if 0 < pr < PRIORITY_FUNCTIONS_LIB {
      var near, name :| ManifestPlace(sourceDir, names, near, name, a) && p == near + name && Nearest(x, near, a)
                        && pr == ManifestPriority(sourceDir, near);
      assert |d| <= |near|;
      if |d| == |near| {
        assert d == sourceDir[..|d|] == near;
        assert (d + n)[|d|..] == n && (d + name)[|d|..] == name;
      }
    }
  }

  /** What is written at a is of lower priority than anything else that plays there. */
  lemma WrittenIsLeast(x: Project, p: Path, a: Path, pr: nat, q: Path, k: nat)
    requires x.Valid() && Written(x, p, a, pr) && IsFile(x.tree, q) && Plays(x.Rules(), q, a, k)
    ensures pr <= k && (pr == k ==> p == q)
  {
    hide Worktree.Valid, Lists, LibrariesByName, ManifestRoles, LibraryRole, FunctionLayer, Keeps;
    var r := x.Rules();
    if Role(a, k) in FunctionRole(r, q) {
      BeatsFunctionRole(x, p, a, pr, q);
    } else if Role(a, k) in ManifestRoles(r, r.manifests, q) {
      var d, n := ManifestOfRole(r, r.manifests, q, a, k);
      BeatsManifest(x, p, a, pr, d, n);
    } else {
      PathOfArchive(r, q, a, k);
      if pr >= PRIORITY_FUNCTIONS_LIB {
        LibraryArchivesDistinct(x, p, q, a, pr, k);
        PathOfArchive(r, p, a, pr);
      }
    }
  }

  /** PackageSource writes p at a exactly when p is the file on disk of least priority there. */
  lemma SelectionIsLeastPriority(x: Project, a: Path, p: Path)
    requires x.Valid()
    ensures a in x.Selection() && x.Selection()[a] == p <==> exists pr :: Wins(x.tree, x.Rules(), p, a, pr)
  {
    if a in x.Selection() {
      var pr := SelectedIsWritten(x, a);
      var w := x.Selection()[a];
      forall q, k | IsFile(x.tree, q) && Plays(x.Rules(), q, a, k)
        ensures pr <= k && (pr == k ==> q == w)
      {
        WrittenIsLeast(x, w, a, pr, q, k);
      }
      assert Wins(x.tree, x.Rules(), w, a, pr);
    }
    if pr :| Wins(x.tree, x.Rules(), p, a, pr) {
      SomethingWins(x, p, a, pr);
    }
  }
}
