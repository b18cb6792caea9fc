/**
 What packaging and inputPaths come to, told from the project's files, the ignore rules and the function alone
 (internal/function/packager.go, scanner.go and inputs.go).
 */
module PackagingMeaning {
  import opened Wrappers
  import opened Worktree
  import opened DirectoryReader
  import opened Scanner
  import opened Packager
  import opened Inputs
  import opened Prediction

  // ---------- Where a file can go ----------

  /** No rule leaves out p, or a directory above it and under root; patterns see paths under base. */
  predicate KeptBelow(m: Matcher, root: Path, base: Path, p: Path)
    requires base <= root < p
  {
    && (forall i | |root| < i < |p| :: !m(p[|base|..i], p[..i], true))
    && !m(p[|base|..], p, false)
  }

  lemma KeepsMeans(m: Matcher, root: Path, base: Path, p: Path)
    requires base <= root < p
    ensures Keeps(m, root, base, p) <==> KeptBelow(m, root, base, p)
  {
    forall i | |root| < i < |p|
      ensures base <= p[..i] && p[..i][|base|..] == p[|base|..i]
    {
    }
  }

  /** p is one of the function's own files, archived at a. */
  predicate OwnAt(x: Project, p: Path, a: Path)
    requires x.info.path != []
  {
    var dir := x.info.Dir();
    if x.info.isDir then dir < p && a == p[|dir|..] && KeptBelow(x.matcher, dir, dir, p)
    else p == x.info.path && SafeArchivePath(x.info.entrypoint) == Some(a)
  }

  lemma OwnMeans(x: Project, p: Path, a: Path, k: nat)
    requires x.Valid()
    ensures Role(a, k) in FunctionRole(x.Rules(), p) <==> k == 0 && OwnAt(x, p, a)
  {
    if x.info.isDir && x.info.Dir() < p {
      KeepsMeans(x.matcher, x.info.Dir(), x.info.Dir(), p);
    }
    hide Keeps, KeptBelow, Worktree.Valid, Lists, LibrariesByName;
  }

  /** p would be a manifest in d, at or above the function; it keeps its path unless d is where the function is. */
  predicate ManifestIn(x: Project, d: Path, p: Path, a: Path)
    requires x.info.path != []
  {
    && d <= x.info.Dir() && d <= p && a == (if d == x.info.Dir() then p[|d|..] else p)
    && exists name <- x.info.manifests :: SafeArchivePath(name) == Some(p[|d|..])
  }

  lemma {:induction false} SafeManifestsMean(names: seq<string>, n: Path)
    ensures n in SafeManifests(names) <==> exists name <- names :: SafeArchivePath(name) == Some(n)
  {
    hide SafeArchivePath;
    if names != [] {
      SafeManifestsMean(names[1..], n);
      assert names == [names[0]] + names[1..];
    }
  }

  lemma ManifestMeans(x: Project, p: Path, a: Path, k: nat)
    requires x.Valid()
    ensures Role(a, k) in ManifestRoles(x.Rules(), x.Rules().manifests, p)
       <==> exists d :: ManifestIn(x, d, p, a) && k == 1 + |x.info.Dir()| - |d|
  {
    hide Worktree.Valid, Lists, LibrariesByName, SafeArchivePath, ManifestRoles, SafeManifests, FunctionsLibs,
         ManifestIn, ManifestPlace;
    var r := x.Rules();
    if Role(a, k) in ManifestRoles(r, r.manifests, p) {
      var d, n := ManifestOfRole(r, r.manifests, p, a, k);
      PlaceMeans(x, d, n, p, a);
    }
    if d :| ManifestIn(x, d, p, a) && k == 1 + |x.info.Dir()| - |d| {
      var n := PlaceOf(x, d, p, a);
      RoleOfManifest(r, r.manifests, d, n, a);
    }
  }

  lemma PlaceMeans(x: Project, d: Path, n: Path, p: Path, a: Path)
    requires x.Valid() && ManifestPlace(x.info.Dir(), SafeManifests(x.info.manifests), d, n, a) && p == d + n
    ensures ManifestIn(x, d, p, a) && d <= x.info.Dir()
  {
    hide Worktree.Valid, Lists, LibrariesByName, SafeArchivePath, SafeManifests;
    SafeManifestsMean(x.info.manifests, n);
    assert p[|d|..] == n;
  }

  lemma PlaceOf(x: Project, d: Path, p: Path, a: Path) returns (n: Path)
    requires x.Valid() && ManifestIn(x, d, p, a)
    ensures ManifestPlace(x.info.Dir(), SafeManifests(x.info.manifests), d, n, a) && p == d + n && n != []
  {
    hide Worktree.Valid, Lists, LibrariesByName, SafeArchivePath, SafeManifests;
    n := p[|d|..];
    SafeManifestsMean(x.info.manifests, n);
    SafeNamesNotEmpty(x.info.manifests);
  }

  /** There is a library of that name in volcano/functions. */
  predicate InFunctions(t: Tree, segment: string) {
    var r := FUNCTIONS + [segment];
    Underscored(segment) && r in t && !t[r].Link?
  }

  /** p[k] is the segment that names the library p is in. */
  predicate NamesLibrary(p: Path, k: nat)
    requires k < |p|
  {
    && VOLCANO < p && Underscored(p[k])
    && if FUNCTIONS < p then k == 2 else 0 < k && forall i | 0 < i < k :: !Underscored(p[i])
  }

  /** Packaging the library keeps p, a file in it or the library itself, which is archived at a. */
  predicate KeptInLibrary(m: Matcher, p: Path, k: nat, a: Path)
    requires k < |p|
  {
    if k == |p| - 1 then !m(a, p, false) else KeptBelow(m, p[..k + 1], [], p)
  }

  /** p is in a library, where it is kept; it is archived at its path in volcano/functions, or in volcano. */
  predicate SharedAt(x: Project, p: Path, k: nat, a: Path)
    requires k < |p|
  {
    && NamesLibrary(p, k) && KeptInLibrary(x.matcher, p, k, a)
    && a == if FUNCTIONS < p then p[2..] else p[1..]
  }

  /** One of that name in volcano/functions takes the place of the library p is in, which is elsewhere. */
  predicate TakenOver(x: Project, p: Path, k: nat)
    requires k < |p|
  {
    !(FUNCTIONS < p) && k == 1 && InFunctions(x.tree, p[1])
  }

  lemma LibraryRef(p: Path, k: nat)
    requires k < |p| && NamesLibrary(p, k)
    ensures SharedLibrary(p).Some?
    ensures var ref := SharedLibrary(p).value;
            && ref.root == p[..k + 1] && ref.name == (if FUNCTIONS < p then p[2..3] else p[1..k + 1])
            && (FUNCTIONS < ref.root <==> FUNCTIONS < p)
            && ref.name + p[|ref.root|..] == if FUNCTIONS < p then p[2..] else p[1..]
  {
    LibrarySegment(p, k);
    var ref := SharedLibrary(p).value;
    assert |ref.root| == k + 1;
    if FUNCTIONS < p {
      assert p == FUNCTIONS + p[2..];
    } else {
      assert ref.root == VOLCANO + ref.name;
      assert FUNCTIONS < ref.root ==> FUNCTIONS < p;
    }
  }

  lemma ReplacedMeans(x: Project, p: Path, k: nat)
    requires x.Valid() && k < |p| && NamesLibrary(p, k)
    ensures SharedLibrary(p).Some? && (Replaced(x.Rules(), SharedLibrary(p).value) <==> TakenOver(x, p, k))
  {
    hide Worktree.Valid, Lists, LibrariesByName, SafeManifests, FunctionsIsNoFile;
    LibraryRef(p, k);
    var ref := SharedLibrary(p).value;
    hide SharedLibrary, FunctionsLibs;
    FunctionsLibsAreRoots(x, ref.name);
    if !(FUNCTIONS < p) && k == 1 {
      assert ref.name == [p[1]];
    }
  }

  lemma KeptMeans(x: Project, p: Path, k: nat, a: Path)
    requires x.Valid() && k < |p| && NamesLibrary(p, k) && a == if FUNCTIONS < p then p[2..] else p[1..]
    ensures SharedLibrary(p).Some?
    ensures LibraryKeeps(x.Rules(), SharedLibrary(p).value, p) <==> KeptInLibrary(x.matcher, p, k, a)
  {
    hide Worktree.Valid, Lists, LibrariesByName, SafeManifests, FunctionsIsNoFile;
    LibraryRef(p, k);
    var ref := SharedLibrary(p).value;
    hide SharedLibrary, FunctionsLibs, Keeps, KeptBelow, NamesLibrary;
    if k < |p| - 1 {
      KeepsMeans(x.matcher, ref.root, [], p);
    } else {
      assert p[|ref.root|..] == [] && ref.name + [] == ref.name;
    }
  }

  lemma LibraryMeans(x: Project, p: Path, a: Path, pr: nat)
    requires x.Valid()
    ensures Role(a, pr) in LibraryRole(x.Rules(), p)
       <==> && pr == (if FUNCTIONS < p then 1000 else 1001)
            && exists k | 0 <= k < |p| :: SharedAt(x, p, k, a) && !TakenOver(x, p, k)
  {
    hide Worktree.Valid, Lists, LibrariesByName, SafeManifests, FunctionsIsNoFile, TakenOver, Replaced, LibraryKeeps,
         KeptInLibrary;
    if SharedLibrary(p).Some? {
      var ref := SharedLibrary(p).value;
      var k := |ref.root| - 1;
      LibrarySegment(p, k);
      assert ref.root == p[..k + 1];
      LibraryRef(p, k);
      ReplacedMeans(x, p, k);
      var own := if FUNCTIONS < p then p[2..] else p[1..];
      KeptMeans(x, p, k, own);
      forall j | 0 <= j < |p| && NamesLibrary(p, j)
        ensures j == k
      {
        LibrarySegment(p, j);
      }
      hide SharedLibrary, NamesLibrary;
      assert SharedAt(x, p, k, own) <==> KeptInLibrary(x.matcher, p, k, own);
    } else if k :| 0 <= k < |p| && NamesLibrary(p, k) {
      LibraryRef(p, k);
    }
  }

  // ---------- What is packaged ----------

  /** The file at p can go to a with priority k: one of the function's own, a manifest, or in a library. */
  ghost predicate HasRole(x: Project, p: Path, a: Path, k: nat)
    requires x.Valid()
  {
    || (k == 0 && OwnAt(x, p, a))
    || (exists d :: ManifestIn(x, d, p, a) && k == 1 + |x.info.Dir()| - |d|)
    || (k == (if FUNCTIONS < p then 1000 else 1001)
        && exists i | 0 <= i < |p| :: SharedAt(x, p, i, a) && !TakenOver(x, p, i))
  }

  lemma RolesMean(x: Project, p: Path, a: Path, k: nat)
    requires x.Valid()
    ensures Role(a, k) in Roles(x.Rules(), p) <==> HasRole(x, p, a, k)
  {
    hide Worktree.Valid, Lists, LibrariesByName, SafeManifests, FunctionsIsNoFile, OwnAt, ManifestIn, SharedAt,
         TakenOver, FunctionRole, ManifestRoles, LibraryRole;
    OwnMeans(x, p, a, k);
    ManifestMeans(x, p, a, k);
    LibraryMeans(x, p, a, k);
  }

  /**
   Packaging writes p at a if and only if p is a file that can go there and no other can before it: the function's own
   files come first, then the manifests nearest the function, then the libraries of volcano/functions, and those
   elsewhere.
   */
  lemma PackagedExactlyWhen(x: Project, a: Path, p: Path)
    requires x.Valid()
    ensures a in x.Selection() && x.Selection()[a] == p
       <==> IsFile(x.tree, p)
            && exists k: nat ::
                 HasRole(x, p, a, k)
                 && forall q, j | IsFile(x.tree, q) && HasRole(x, q, a, j) :: k <= j && (k == j ==> q == p)
  {
    hide Worktree.Valid, Lists, LibrariesByName, FunctionsIsNoFile, HasRole, Roles, Selection;
    SelectionIsLeastPriority(x, a, p);
    forall q, j: nat
      ensures Plays(x.Rules(), q, a, j) <==> HasRole(x, q, a, j)
    {
      RolesMean(x, q, a, j);
    }
    forall k: nat
      ensures Wins(x.tree, x.Rules(), p, a, k)
         <==> IsFile(x.tree, p) && HasRole(x, p, a, k)
              && forall q, j | IsFile(x.tree, q) && HasRole(x, q, a, j) :: k <= j && (k == j ==> q == p)
    {
      hide Plays;
    }
  }

  // ---------- What a path alone tells ----------

  /** The place p has before all others. */
  ghost predicate FirstRole(x: Project, p: Path, a: Path, k: nat)
    requires x.Valid()
  {
    HasRole(x, p, a, k) && forall b, j | HasRole(x, p, b, j) :: k <= j
  }

  lemma OnePlaceEach(x: Project, p: Path, a: Path, b: Path, k: nat)
    requires x.Valid() && HasRole(x, p, a, k) && HasRole(x, p, b, k)
    ensures a == b
  {
    hide Worktree.Valid, Lists, LibrariesByName, FunctionsIsNoFile, SafeArchivePath, NamesLibrary, KeptInLibrary,
         TakenOver, KeptBelow;
    if d, e :| ManifestIn(x, d, p, a) && k == 1 + |x.info.Dir()| - |d|
               && ManifestIn(x, e, p, b) && k == 1 + |x.info.Dir()| - |e| {
      assert d == p[..|d|] && e == p[..|e|];
    }
  }

  lemma FirstIsBest(x: Project, p: Path, a: Path, k: nat)
    requires x.Valid()
    ensures FirstRole(x, p, a, k) <==> Best(Roles(x.Rules(), p)) == Some(Role(a, k))
  {
    hide Worktree.Valid, Lists, LibrariesByName, FunctionsIsNoFile, HasRole, Roles;
    var roles := Roles(x.Rules(), p);
    BestIsLeast(roles);
    forall b, j: nat
      ensures Role(b, j) in roles <==> HasRole(x, p, b, j)
    {
      RolesMean(x, p, b, j);
    }
    if FirstRole(x, p, a, k) {
      assert Role(a, k) in roles;
      var best := Best(roles).value;
      assert Role(best.archive, best.priority) in roles;
      OnePlaceEach(x, p, a, best.archive, k);
    }
  }

  /**
   The answer for a path with a place: it feeds the function unless what is packaged there has a place before it, which
   then shadows it.
   */
  lemma AnswerMeans(x: Project, p: Path, a: Path, k: nat)
    requires x.Valid() && FirstRole(x, p, a, k)
    ensures var sel := x.Selection();
            InputPath(x.Rules(), sel, p)
            == if a in sel && sel[a] != p && exists b, j: nat :: FirstRole(x, sel[a], b, j) && j < k
               then Answer(false, Some(sel[a])) else Answer(true, None)
  {
    hide Worktree.Valid, Lists, LibrariesByName, FunctionsIsNoFile, HasRole, Roles, Selection, FirstRole;
    var sel := x.Selection();
    FirstIsBest(x, p, a, k);
    if a in sel {
      forall b, j: nat
        ensures FirstRole(x, sel[a], b, j) <==> Best(Roles(x.Rules(), sel[a])) == Some(Role(b, j))
      {
        FirstIsBest(x, sel[a], b, j);
      }
      var best := Best(Roles(x.Rules(), sel[a]));
      assert best.Some? ==> best == Some(Role(best.value.archive, best.value.priority));
    }
  }

  /** One without does not, and what shadows it is the library that takes the place of its own, if any does. */
  lemma NoAnswerMeans(x: Project, p: Path)
    requires x.Valid() && forall a, k :: !HasRole(x, p, a, k)
    ensures InputPath(x.Rules(), x.Selection(), p)
         == Answer(false, if exists i | 0 <= i < |p| :: SharedAt(x, p, i, p[1..]) && TakenOver(x, p, i)
                          then Some(FUNCTIONS + [p[1]]) else None)
  {
    hide Worktree.Valid, Lists, LibrariesByName, FunctionsIsNoFile, Selection;
    var roles := Roles(x.Rules(), p);
    BestIsLeast(roles);
    if roles != [] {
      var best := Best(roles).value;
      RolesMean(x, p, best.archive, best.priority);
    }
    hide HasRole, Roles;
    ShadowMeans(x, p);
  }

  lemma ShadowMeans(x: Project, p: Path)
    requires x.Valid() && Roles(x.Rules(), p) == []
    ensures ReplacedBy(x.Rules(), p)
         == if exists i | 0 <= i < |p| :: SharedAt(x, p, i, p[1..]) && TakenOver(x, p, i)
            then Some(FUNCTIONS + [p[1]]) else None
  {
    hide Worktree.Valid, Lists, LibrariesByName, SafeManifests, FunctionsIsNoFile, Replaced, LibraryKeeps,
         KeptInLibrary, Roles;
    if SharedLibrary(p).Some? {
      var ref := SharedLibrary(p).value;
      var k := |ref.root| - 1;
      LibrarySegment(p, k);
      assert ref.root == p[..k + 1];
      LibraryRef(p, k);
      ReplacedMeans(x, p, k);
      KeptMeans(x, p, k, if FUNCTIONS < p then p[2..] else p[1..]);
      forall j | 0 <= j < |p| && NamesLibrary(p, j)
        ensures j == k
      {
        LibrarySegment(p, j);
      }
      hide SharedLibrary, NamesLibrary;
      assert k == 1 && !(FUNCTIONS < p) ==> ref.name == [p[1]];
    } else if k :| 0 <= k < |p| && NamesLibrary(p, k) {
      LibraryRef(p, k);
    }
  }

  // ---------- When there is a package ----------

  /** A directory that is there, and of which the rules keep ten thousand files at most. */
  ghost predicate Fits(t: Tree, m: Matcher, root: Path, base: Path)
    requires base <= root
  {
    root in t && |(set q | q in t && root < q && t[q].File? && KeptBelow(m, root, base, q))| <= 10000
  }

  lemma FitsMeans(t: Tree, m: Matcher, root: Path, base: Path)
    requires base <= root
    ensures FitsArchive(t, m, root, base) <==> Fits(t, m, root, base)
  {
    forall q | q in t && root < q
      ensures Keeps(m, root, base, q) <==> KeptBelow(m, root, base, q)
    {
      KeepsMeans(m, root, base, q);
    }
    hide Keeps, KeptBelow;
    assert KeptUnder(Walk(t, m, root, base), root)
        == set q | q in t && root < q && t[q].File? && KeptBelow(m, root, base, q);
  }

  /**
   Packaging succeeds if and only if the function's directory and those of its libraries are there and not too large, or
   the function's file is there and its entrypoint can be a path in an archive, as every manifest can.
   */
  lemma PackageableExactlyWhen(t: Tree, m: Matcher, info: SourceInfo, libs: seq<Library>)
    requires info.path != []
    ensures Packageable(t, m, info, libs)
       <==> && (if info.isDir then Fits(t, m, info.Dir(), info.Dir())
                else IsFile(t, info.path) && SafeArchivePath(info.entrypoint).Some?)
            && (forall name <- info.manifests :: SafeArchivePath(name).Some?)
            && (forall lib <- libs :: lib.isDir ==> Fits(t, m, lib.path, []))
  {
    FitsMeans(t, m, info.Dir(), info.Dir());
    forall lib | lib in libs
      ensures FitsArchive(t, m, lib.path, []) <==> Fits(t, m, lib.path, [])
    {
      FitsMeans(t, m, lib.path, []);
    }
    hide FitsArchive, Fits, SafeArchivePath;
  }

  // ---------- The libraries found ----------

  /** A library lies at volcano/functions/n. */
  ghost predicate LibraryInFunctions(t: Tree, n: Path) {
    |n| == 1 && InFunctions(t, n[0])
  }

  /** A library lies at volcano/n, outside volcano/functions: n ends with its first underscored segment. */
  ghost predicate LibraryElsewhere(t: Tree, n: Path) {
    var r := VOLCANO + n;
    && n != [] && r in t && !t[r].Link? && !(FUNCTIONS <= r)
    && Underscored(n[|n| - 1]) && forall i | 0 <= i < |n| - 1 :: !Underscored(n[i])
  }

  /** The libraries of a project are those in volcano/functions, and those elsewhere whose name none there has. */
  lemma LibrariesMean(t: Tree, libs: seq<Library>, lib: Library)
    requires Lists(libs, LibrariesByName(t))
    ensures lib in libs
       <==> && lib.path in t && (lib.isDir <==> t[lib.path].Dir?)
            && if LibraryInFunctions(t, lib.name) then lib.path == FUNCTIONS + lib.name
               else LibraryElsewhere(t, lib.name) && lib.path == VOLCANO + lib.name
  {
    NamedMeans(t, lib.name);
    hide LibrariesByName, LibraryInFunctions, LibraryElsewhere;
  }

  lemma NamedMeans(t: Tree, n: Path)
    ensures var m, path := LibrariesByName(t), (if LibraryInFunctions(t, n) then FUNCTIONS else VOLCANO) + n;
            && (n in m <==> LibraryInFunctions(t, n) || LibraryElsewhere(t, n))
            && (n in m ==> path in t && m[n] == Library(path, n, t[path].Dir?))
  {
    LibraryNamed(t, n);
    InFunctionsMeans(t, n);
    ElsewhereMeans(t, n);
    assert LibraryInFunctions(t, n) ==> n == [n[0]];
    hide IsRoot, Roots, Names;
  }

  lemma InFunctionsMeans(t: Tree, n: Path)
    ensures IsRoot(t, FUNCTIONS, FUNCTIONS + n) <==> LibraryInFunctions(t, n)
  {
    assert |n| == 1 ==> n == [n[0]];
  }

  lemma ElsewhereMeans(t: Tree, n: Path)
    ensures IsRoot(t, VOLCANO, VOLCANO + n) <==> LibraryElsewhere(t, n)
  {
    var r := VOLCANO + n;
    assert forall i | 0 <= i < |n| :: n[i] == r[1 + i];
    assert forall i | 1 <= i < |r| :: r[i] == n[i - 1];
  }
}
