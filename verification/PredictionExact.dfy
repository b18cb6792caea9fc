/** When inputPaths tells exactly which files on disk packaging wrote. */
module PredictionExact {
  import opened Wrappers
  import opened Worktree
  import opened DirectoryReader
  import opened Scanner
  import opened Packager
  import opened Ignore
  import opened Inputs
  import opened Prediction

  /** For every regular file, the path-only answer is whether packaging wrote it. */
  ghost predicate Exact(x: Project)
    requires x.info.path != []
  {
    forall p | IsFile(x.tree, p) :: InputPath(x.Rules(), x.Selection(), p).feeds <==> p in x.Selection().Values
  }

  /** No manifest looked up above the function's directory names a file in a shared library. */
  ghost predicate ManifestsOutsideLibraries(info: SourceInfo)
    requires info.path != []
  {
    forall d, n | d < info.Dir() && n in SafeManifests(info.manifests) :: SharedLibrary(d + n).None?
  }

  /** No manifest looked up above the function's directory names a file inside it. */
  ghost predicate ManifestsOutsideFunction(info: SourceInfo)
    requires info.path != []
  {
    forall d, n | d < info.Dir() && n in SafeManifests(info.manifests) :: !(info.Dir() < d + n)
  }

  ghost predicate NamesApart(info: SourceInfo)
    requires info.path != []
  {
    ManifestsOutsideLibraries(info) && ManifestsOutsideFunction(info)
  }

  /** Every manifest is a plain file name that does not start with an underscore. */
  ghost predicate PlainNames(info: SourceInfo)
    requires info.path != []
  {
    forall n <- SafeManifests(info.manifests) :: |n| == 1 && !Underscored(n[0])
  }

  lemma NoUnderscore(p: Path)
    requires forall i | 0 <= i < |p| :: !Underscored(p[i])
    ensures SharedLibrary(p).None?
  {
  }

  lemma PlainNamesApart(info: SourceInfo)
    requires Scanned(info) && PlainNames(info)
    ensures NamesApart(info)
  {
    hide SharedLibrary, SafeManifests;
    forall d, n | d < info.Dir() && n in SafeManifests(info.manifests)
      ensures SharedLibrary(d + n).None? && !(info.Dir() < d + n)
    {
      PlainAbove(info, d);
      assert |d + n| == |d| + 1;
      NoUnderscore(d + n);
    }
  }

  lemma PlainAbove(info: SourceInfo, d: Path)
    requires Scanned(info) && d < info.Dir()
    ensures forall i | 0 <= i < |d| :: !Underscored(d[i])
  {
    assert !Underscored("volcano") && !Underscored("functions");
    assert d == info.path[..|d|];
    assert |d| <= 2;
  }

  /** p is the file of a function that is one file, which can be a manifest as well. */
  predicate IsSource(r: Rules, p: Path) {
    !r.isDir && p == r.source
  }

  /** No other file is archived at two paths. */
  ghost predicate OneArchive(r: Rules) {
    forall p, a, b, k, l | !IsSource(r, p) && Plays(r, p, a, k) && Plays(r, p, b, l) :: a == b
  }

  /** Where a role of p puts it: from the function, in a manifest directory d, or from its library. */
  lemma RoleKinds(r: Rules, p: Path, a: Path, k: nat) returns (d: Path, n: Path)
    requires Plays(r, p, a, k) && [] !in r.manifests
    ensures || (k == 0 && Role(a, k) in FunctionRole(r, p))
            || (n != [] && 0 < k && ManifestPlace(r.sourceDir, r.manifests, d, n, a) && p == d + n
                && k == ManifestPriority(r.sourceDir, d))
            || (k >= PRIORITY_FUNCTIONS_LIB && Role(a, k) in LibraryRole(r, p))
  {
    d, n := [], [];
    if Role(a, k) in ManifestRoles(r, r.manifests, p) {
      d, n := ManifestOfRole(r, r.manifests, p, a, k);
    } else if Role(a, k) in LibraryRole(r, p) {
      PathOfArchive(r, p, a, k);
    }
  }

  /** Files in the function's directory, or the function's file, are in no library. */
  lemma FunctionOutsideLibraries(info: SourceInfo, p: Path)
    requires Scanned(info) && (info.isDir ==> info.Dir() < p) && (!info.isDir ==> p == info.path)
    ensures SharedLibrary(p).None?
  {
    assert FUNCTIONS < p && p[2] == info.path[2];
  }

  /** Where a manifest of the function's directory is in a library, both put it at the same path. */
  lemma ManifestInLibrary(r: Rules, info: SourceInfo, n: Path, b: Path, l: nat)
    requires Scanned(info) && r.sourceDir == info.Dir() && n != [] && Role(b, l) in LibraryRole(r, info.Dir() + n)
    ensures b == n
  {
    var p := info.Dir() + n;
    if info.isDir {
      FunctionOutsideLibraries(info, p);
    }
    PathOfArchive(r, p, b, l);
    assert FUNCTIONS < p;
    assert (FUNCTIONS + b)[2..] == b && p[2..] == n;
  }

  /** A file of the function's directory that is also a manifest is archived where the function puts it. */
  lemma FunctionAndManifest(info: SourceInfo, p: Path, d: Path, n: Path)
    requires Scanned(info) && NamesApart(info) && info.Dir() < p
    requires d <= info.Dir() && n in SafeManifests(info.manifests) && p == d + n
    ensures d == info.Dir() && n == p[|d|..]
  {
    assert d == info.Dir();
    assert (d + n)[|d|..] == n;
  }

  /** A file that is a manifest of two directories is archived at one path. */
  lemma TwoPlaces(info: SourceInfo, d: Path, n: Path, e: Path, o: Path)
    requires info.path != [] && ManifestsOutsideFunction(info)
    requires d <= info.Dir() && e <= info.Dir() && d + n == e + o && n != [] && o != []
    requires n in SafeManifests(info.manifests) && o in SafeManifests(info.manifests)
    ensures ManifestArchive(info.Dir(), d, n) == ManifestArchive(info.Dir(), e, o)
  {
    if d == e {
      assert (d + n)[|d|..] == n && (e + o)[|e|..] == o;
    }
  }

  ghost predicate RulesOf(r: Rules, info: SourceInfo)
    requires info.path != []
  {
    && r.source == info.path && r.sourceDir == info.Dir() && r.isDir == info.isDir
    && r.manifests == SafeManifests(info.manifests) && (!r.isDir ==> r.entrypoint == EntrypointOf(info))
  }

  /** A file of the function itself is archived where its first role puts it. */
  lemma FunctionFileOnce(r: Rules, info: SourceInfo, p: Path, a: Path, b: Path, l: nat)
    requires Scanned(info) && NamesApart(info) && RulesOf(r, info)
    requires Role(a, 0) in FunctionRole(r, p) && Plays(r, p, b, l) && !IsSource(r, p)
    ensures a == b
  {
    SafeNamesNotEmpty(info.manifests);
    FunctionOutsideLibraries(info, p);
    var d, n := RoleKinds(r, p, b, l);
    if l > 0 {
      FunctionAndManifest(info, p, d, n);
    }
  }

  lemma ManifestOnce(r: Rules, info: SourceInfo, d: Path, n: Path, a: Path, b: Path, l: nat)
    requires Scanned(info) && NamesApart(info) && RulesOf(r, info)
    requires ManifestPlace(r.sourceDir, r.manifests, d, n, a) && Plays(r, d + n, b, l) && l > 0
    ensures a == b
  {
    SafeNamesNotEmpty(info.manifests);
    var e, o := RoleKinds(r, d + n, b, l);
    if Role(b, l) in LibraryRole(r, d + n) {
      if d == info.Dir() {
        ManifestInLibrary(r, info, n, b, l);
      }
    } else {
      TwoPlaces(info, d, n, e, o);
    }
  }

  lemma SameArchive(r: Rules, info: SourceInfo, p: Path, a: Path, k: nat, b: Path, l: nat)
    requires Scanned(info) && NamesApart(info) && RulesOf(r, info)
    requires Plays(r, p, a, k) && Plays(r, p, b, l) && k <= l && !IsSource(r, p)
    ensures a == b
  {
    hide SharedLibrary, ManifestRoles, Keeps, LibraryKeeps, Replaced, NamesApart, Scanned, FunctionRole;
    SafeNamesNotEmpty(info.manifests);
    var d, n := RoleKinds(r, p, a, k);
    if k == 0 {
      FunctionFileOnce(r, info, p, a, b, l);
    } else if Role(a, k) in LibraryRole(r, p) {
      var e, o := RoleKinds(r, p, b, l);
      if Role(b, l) !in LibraryRole(r, p) {
        ManifestOnce(r, info, e, o, b, a, k);
      }
    } else {
      ManifestOnce(r, info, d, n, a, b, l);
    }
  }

  /**
   When its manifest names are apart, packaging archives no file at two paths, but for the file of a function that is
   one file, which has its place as a manifest beside that as the function when its name is one of theirs.
   */
  lemma NamesApartOneArchive(x: Project)
    requires x.Valid() && NamesApart(x.info)
    ensures OneArchive(x.Rules())
    ensures !x.info.isDir ==>
              forall a, k | Plays(x.Rules(), x.info.path, a, k) ::
                Role(a, k) == (if k == 0 then Role(EntrypointOf(x.info), 0) else Role([x.info.path[2]], 1))
  {
    if !x.info.isDir {
      forall a, k | Plays(x.Rules(), x.info.path, a, k)
        ensures Role(a, k) == (if k == 0 then Role(EntrypointOf(x.info), 0) else Role([x.info.path[2]], 1))
      {
        SourceRoles(x, a, k);
      }
    }
    forall p, a, b, k, l | !IsSource(x.Rules(), p) && Plays(x.Rules(), p, a, k) && Plays(x.Rules(), p, b, l)
      ensures a == b
    {
      if k <= l {
        SameArchive(x.Rules(), x.info, p, a, k, b, l);
      } else {
        SameArchive(x.Rules(), x.info, p, b, l, a, k);
      }
    }
  }

  lemma SourceRoles(x: Project, a: Path, k: nat)
    requires x.Valid() && NamesApart(x.info) && !x.info.isDir && Plays(x.Rules(), x.info.path, a, k)
    ensures Role(a, k) == (if k == 0 then Role(EntrypointOf(x.info), 0) else Role([x.info.path[2]], 1))
  {
    hide SharedLibrary, ManifestRoles, Lists, LibrariesByName, Worktree.Valid;
    SafeNamesNotEmpty(x.info.manifests);
    FunctionOutsideLibraries(x.info, x.info.path);
    var d, n := RoleKinds(x.Rules(), x.info.path, a, k);
    if k > 0 {
      FunctionAndManifest(x.info, x.info.path, d, n);
      assert x.info.path[2..] == [x.info.path[2]];
    }
  }

  // ---------- Where it is not exact ----------

  /** A manifest looked up above the function's directory may be at p. */
  ghost predicate ManifestAbove(info: SourceInfo, p: Path)
    requires info.path != []
  {
    exists d, n :: d < info.Dir() && n in SafeManifests(info.manifests) && p == d + n
  }

  /** The file at q is a manifest that is archived at a. */
  ghost predicate ArchivedAs(info: SourceInfo, q: Path, a: Path)
    requires info.path != []
  {
    exists d, n :: ManifestPlace(info.Dir(), SafeManifests(info.manifests), d, n, a) && q == d + n
  }

  /** Where the library of p puts it. */
  function LibraryArchive(p: Path): Path
    requires SharedLibrary(p).Some?
  {
    SharedLibrary(p).value.name + p[|SharedLibrary(p).value.root|..]
  }

  /** Nothing but the patterns decides what is left out. */
  function Only(patterns: Patterns): Matcher {
    (p, _, _) => patterns(p)
  }

  /** The patterns do not leave p out of the library it is in. */
  predicate KeptInLibrary(patterns: Patterns, p: Path)
    requires SharedLibrary(p).Some?
  {
    var ref := SharedLibrary(p).value;
    if ref.root < p then Keeps(Only(patterns), ref.root, [], p) else !patterns(ref.name)
  }

  /** Nor w out of the function's directory. */
  predicate KeptInFunction(patterns: Patterns, info: SourceInfo, w: Path)
    requires info.path != [] && info.Dir() < w
  {
    Keeps(Only(patterns), info.Dir(), info.Dir(), w)
  }

  /** p is a manifest beside a function that is one file, and that file takes its place. */
  ghost predicate TakenByFunction(info: SourceInfo, p: Path)
    requires info.path != []
  {
    && !info.isDir && FUNCTIONS < p && p[2..] in SafeManifests(info.manifests)
    && EntrypointOf(info) == p[2..] && !(info.path <= p)
  }

  /** p is in a library too, and a file of the function's directory can take its place as a manifest but not there. */
  ghost predicate TakenInLibrary(patterns: Patterns, info: SourceInfo, p: Path)
    requires info.path != [] && p != []
  {
    && SharedLibrary(p).Some? && KeptInLibrary(patterns, p) && !ArchivedAs(info, info.path, LibraryArchive(p))
    && if info.isDir then
         && !(info.path <= info.Dir() + p)
         && (p in SafeManifests(info.manifests) || KeptInFunction(patterns, info, info.Dir() + p))
       else
         && !(FUNCTIONS < p && p[2..] in SafeManifests(info.manifests)) && EntrypointOf(info) != LibraryArchive(p)
         && (EntrypointOf(info) == p
             || (p in SafeManifests(info.manifests) && !(info.path <= info.Dir() + p)))
  }

  /** Some project that has the function has a file p that is written, though the path-only answer says it is not. */
  ghost predicate Misjudged(patterns: Patterns, info: SourceInfo, p: Path)
    requires info.path != []
  {
    p != [] && ManifestAbove(info, p) && (TakenByFunction(info, p) || TakenInLibrary(patterns, info, p))
  }

  // ---------- It is exact everywhere else ----------

  lemma Dropped(d: Path, n: Path)
    ensures (d + n)[|d|..] == n
  {
  }

  lemma Rejoined(d: Path, p: Path)
    ensures d <= p ==> d + p[|d|..] == p
  {
  }

  lemma SelectedIsFile(x: Project, a: Path)
    requires x.Valid() && a in x.Selection()
    ensures IsFile(x.tree, x.Selection()[a])
  {
    var _ := SelectedIsWritten(x, a);
  }

  /** A library file is apart from the function's files and from its directory. */
  lemma LibraryApart(info: SourceInfo, p: Path)
    requires Scanned(info) && SharedLibrary(p).Some?
    ensures |p| >= 2 && p[0] == "volcano" && !(p <= info.path) && !(info.path <= p)
    ensures !(p <= info.Dir() + p) && !(info.Dir() <= p && info.isDir)
    ensures SharedLibrary(info.path).None? && SharedLibrary(info.Dir() + p).None?
    ensures |LibraryArchive(p)| < |p| && p == DirOf(SharedLibrary(p).value) + LibraryArchive(p)
    ensures |LibraryArchive(p)| == 1 ==> Underscored(LibraryArchive(p)[0])
  {
    var w := info.Dir() + p;
    assert !Underscored("functions") && !Underscored("volcano");
    assert p == SharedLibrary(p).value.root + p[|SharedLibrary(p).value.root|..];
    assert FUNCTIONS < w && (w[2] == info.path[2] || w[2] == "volcano");
    if |p| > 2 && p[..2] == FUNCTIONS {
      assert FUNCTIONS < p && Underscored(p[2]);
    }
  }

  /** What took the place of a manifest is a file of the function, or a manifest in its directory. */
  lemma WhoShadows(x: Project, p: Path, a: Path, k: nat, d: Path, n: Path) returns (pr: nat)
    requires x.Valid() && IsFile(x.tree, p) && a in x.Selection() && x.Selection()[a] != p
    requires ManifestPlace(x.info.Dir(), x.Rules().manifests, d, n, a) && p == d + n
    requires k == ManifestPriority(x.info.Dir(), d) && Plays(x.Rules(), p, a, k)
    ensures pr < k && Plays(x.Rules(), x.Selection()[a], a, pr)
    ensures pr == 0 ==> Role(a, 0) in FunctionRole(x.Rules(), x.Selection()[a])
    ensures pr > 0 ==> d != x.info.Dir() && a in x.Rules().manifests && x.Selection()[a] == x.info.Dir() + a
  {
    hide Worktree.Valid, Lists, LibrariesByName, Keeps, FunctionLayer, ManifestLayers, LibraryLayer, SharedLibrary,
         FunctionsIsNoFile, LibraryRole, ManifestRoles, FunctionRole;
    var r, w := x.Rules(), x.Selection()[a];
    SafeNamesNotEmpty(x.info.manifests);
    pr := SelectedIsWritten(x, a);
    WrittenIsLeast(x, w, a, pr, p, k);
    PriorityTells(r, w, a, pr);
    var e, o := RoleKinds(r, w, a, pr);
    if pr > 0 {
      assert |e| > |d|;
      assert d < e;
    }
  }

  /** A file whose first place is taken, and that is written at another, is a manifest twice, or in a library too. */
  lemma TwoArchives(x: Project, p: Path, a: Path, k: nat, b: Path, l: nat) returns (d: Path, n: Path)
    requires x.Valid() && IsFile(x.tree, p) && Best(Roles(x.Rules(), p)) == Some(Role(a, k))
    requires a in x.Selection() && x.Selection()[a] != p && Plays(x.Rules(), p, b, l) && a != b
    ensures ManifestPlace(x.info.Dir(), x.Rules().manifests, d, n, a) && p == d + n && n != []
    ensures k == ManifestPriority(x.info.Dir(), d) && Plays(x.Rules(), p, a, k)
    ensures if d == x.info.Dir() then ManifestAbove(x.info, p)
            else Role(b, l) in LibraryRole(x.Rules(), p) && l >= PRIORITY_FUNCTIONS_LIB
  {
    hide Worktree.Valid, Lists, LibrariesByName, Keeps, FunctionLayer, ManifestLayers, LibraryLayer, SharedLibrary,
         FunctionsIsNoFile, ManifestRoles, FunctionRole, LibraryKeeps, Replaced;
    var r := x.Rules();
    SafeNamesNotEmpty(x.info.manifests);
    BestIsLeast(Roles(r, p));
    SomethingWins(x, p, a, k);
    assert Plays(r, p, a, k) && k <= l && 0 < k;
    PriorityTells(r, p, a, k);
    PriorityTells(r, p, b, l);
    d, n := RoleKinds(r, p, a, k);
    var e, o := RoleKinds(r, p, b, l);
    if Role(b, l) in LibraryRole(r, p) && l >= PRIORITY_FUNCTIONS_LIB {
      if Role(a, k) !in LibraryRole(r, p) && d == x.info.Dir() {
        ManifestInLibrary(r, x.info, n, b, l);
      }
    } else {
      assert |e| <= |d|;
      Dropped(d, n);
      Dropped(e, o);
      assert d == x.info.Dir() && e < d;
    }
  }

  lemma FailureIsMisjudged(patterns: Patterns, x: Project, p: Path, a: Path, k: nat, b: Path, l: nat)
    requires Includes(x.matcher, patterns) && x.Valid() && IsFile(x.tree, x.info.path) && IsFile(x.tree, p)
    requires Best(Roles(x.Rules(), p)) == Some(Role(a, k))
    requires a in x.Selection() && x.Selection()[a] != p
    requires b in x.Selection() && x.Selection()[b] == p && Written(x, p, b, l) && a != b
    ensures Misjudged(patterns, x.info, p)
  {
    hide Worktree.Valid, Lists, LibrariesByName, Keeps, FunctionLayer, ManifestLayers, LibraryLayer, SharedLibrary,
         FunctionsIsNoFile, LibraryRole, ManifestRoles, TakenInLibrary;
    var d, n := TwoArchives(x, p, a, k, b, l);
    var pr := WhoShadows(x, p, a, k, d, n);
    if d == x.info.Dir() {
      TakenBeside(x, p, a, n);
      assert p != [];
    } else {
      assert ManifestAbove(x.info, p);
      NotBeside(x, p, a, k);
      TakenAbove(patterns, x, p, k, b, l, pr);
    }
  }

  /** A manifest of the function's directory whose place is taken is that of a function that is one file. */
  lemma TakenBeside(x: Project, p: Path, a: Path, n: Path)
    requires x.Valid() && IsFile(x.tree, x.info.path) && IsFile(x.tree, p) && p == x.info.Dir() + n && n != [] && a == n
    requires n in x.Rules().manifests && a in x.Selection() && x.Selection()[a] != p
    requires Role(a, 0) in FunctionRole(x.Rules(), x.Selection()[a])
    ensures TakenByFunction(x.info, p)
  {
    hide Lists, LibrariesByName, Keeps, FunctionLayer, ManifestLayers, LibraryLayer, FunctionsIsNoFile;
    var w := x.Selection()[a];
    if x.info.isDir {
      Rejoined(x.info.Dir(), w);
      assert false;
    }
    assert w == x.info.path && p[2..] == n;
    if x.info.path <= p {
      NothingBelow(x.tree, x.info.path, p);
    }
  }

  /** A manifest from above, where its first place is, is none of the function's directory. */
  lemma NotBeside(x: Project, p: Path, a: Path, k: nat)
    requires x.Valid() && Best(Roles(x.Rules(), p)) == Some(Role(a, k)) && k > 1
    ensures !x.info.isDir ==> !(FUNCTIONS < p && p[2..] in SafeManifests(x.info.manifests))
  {
    hide FunctionRole, ManifestRoles, LibraryRole;
    var r := x.Rules();
    SafeNamesNotEmpty(x.info.manifests);
    BestIsLeast(Roles(r, p));
    if !x.info.isDir && FUNCTIONS < p && p[2..] in SafeManifests(x.info.manifests) {
      assert x.info.Dir() == FUNCTIONS && FUNCTIONS + p[2..] == p;
      RoleOfManifest(r, r.manifests, FUNCTIONS, p[2..], p[2..]);
    }
  }

  lemma TakenAbove(patterns: Patterns, x: Project, p: Path, k: nat, b: Path, l: nat, pr: nat)
    requires Includes(x.matcher, patterns) && p != [] && x.Valid() && IsFile(x.tree, x.info.path) && IsFile(x.tree, p)
    requires p in x.Selection() && x.Selection()[p] != p
    requires b in x.Selection() && x.Selection()[b] == p && Written(x, p, b, l)
    requires Role(b, l) in LibraryRole(x.Rules(), p) && l >= PRIORITY_FUNCTIONS_LIB
    requires pr == 0 ==> Role(p, 0) in FunctionRole(x.Rules(), x.Selection()[p])
    requires pr > 0 ==> p in x.Rules().manifests && x.Selection()[p] == x.info.Dir() + p
    requires !x.info.isDir ==> !(FUNCTIONS < p && p[2..] in SafeManifests(x.info.manifests))
    ensures TakenInLibrary(patterns, x.info, p)
  {
    hide Worktree.Valid, Lists, LibrariesByName, Keeps, FunctionLayer, ManifestLayers, LibraryLayer, SharedLibrary,
         FunctionsIsNoFile, ManifestRoles, Written, LibraryKeeps, Replaced, Selection;
    var r, w := x.Rules(), x.Selection()[p];
    LibraryApart(x.info, p);
    assert b == LibraryArchive(p);
    NotArchivedThere(x, p, b, l);
    SelectedIsFile(x, p);
    if w == x.info.Dir() + p {
      NotBelowFunction(x, w);
    }
    KeptBecauseIncluded(patterns, x, p);
    if pr == 0 && x.info.isDir {
      Rejoined(x.info.Dir(), w);
      KeptInDirectory(patterns, x, w);
    }
    if !x.info.isDir && EntrypointOf(x.info) == b {
      assert FunctionRole(r, x.info.path) == [Role(b, 0)];
      SomethingWins(x, x.info.path, b, 0);
    }
  }

  lemma KeptBecauseIncluded(patterns: Patterns, x: Project, p: Path)
    requires x.Valid() && Includes(x.matcher, patterns) && SharedLibrary(p).Some? && LibraryRole(x.Rules(), p) != []
    ensures KeptInLibrary(patterns, p)
  {
    hide SharedLibrary, Lists, LibrariesByName, Worktree.Valid, Replaced;
  }

  lemma KeptInDirectory(patterns: Patterns, x: Project, w: Path)
    requires x.Valid() && x.info.isDir && Includes(x.matcher, patterns) && FunctionRole(x.Rules(), w) != []
    ensures x.info.Dir() < w && KeptInFunction(patterns, x.info, w)
  {
    hide SharedLibrary, Lists, LibrariesByName, Worktree.Valid;
  }

  lemma NotBelowFunction(x: Project, w: Path)
    requires x.Valid() && IsFile(x.tree, x.info.path) && IsFile(x.tree, w) && |w| > |x.info.path|
    ensures !(x.info.path <= w)
  {
    if x.info.path <= w {
      NothingBelow(x.tree, x.info.path, w);
    }
  }

  /** What a library writes at b is in no manifest's place, the function's file's least of all. */
  lemma NotArchivedThere(x: Project, p: Path, b: Path, l: nat)
    requires x.Valid() && IsFile(x.tree, x.info.path) && Written(x, p, b, l) && l >= PRIORITY_FUNCTIONS_LIB
    ensures !ArchivedAs(x.info, x.info.path, b)
  {
    hide Worktree.Valid, Lists, LibrariesByName, Keeps, FunctionLayer, ManifestLayers, LibraryLayer, SharedLibrary,
         FunctionsIsNoFile, ManifestRoles, LibraryRole, FunctionRole;
    forall d, n | ManifestPlace(x.info.Dir(), SafeManifests(x.info.manifests), d, n, b)
      ensures x.info.path != d + n
    {
      assert !ManifestAt(x.tree, x.info.Dir(), x.Rules().manifests, d, n, b);
    }
  }

  /**
   The prediction refines packaging: for every regular file, inputPaths says it feeds the function exactly when
   PackageSource wrote it, where no file on disk is one that can be misjudged.
   */
  lemma PredictionIsExact(patterns: Patterns, x: Project)
    requires x.Valid() && IsFile(x.tree, x.info.path) && Includes(x.matcher, patterns)
    requires forall p | IsFile(x.tree, p) :: !Misjudged(patterns, x.info, p)
    ensures Exact(x)
  {
    hide Worktree.Valid, Lists, LibrariesByName, Keeps, FunctionLayer, ManifestLayers, LibraryLayer, SharedLibrary,
         FunctionsIsNoFile, LibraryRole, ManifestRoles, FunctionRole, Misjudged;
    var r, s := x.Rules(), x.Selection();
    forall p | IsFile(x.tree, p)
      ensures InputPath(r, s, p).feeds <==> p in s.Values
    {
      BestIsLeast(Roles(r, p));
      if a :| a in s && s[a] == p {
        var pr := SelectedIsWritten(x, a);
        assert Plays(r, p, a, pr);
        var best := Best(Roles(r, p)).value;
        if best.archive in s && s[best.archive] != p {
          FailureIsMisjudged(patterns, x, p, best.archive, best.priority, a, pr);
        }
      } else if Roles(r, p) != [] {
        var best := Best(Roles(r, p)).value;
        assert Plays(r, p, best.archive, best.priority);
        SomethingWins(x, p, best.archive, best.priority);
        var pr := SelectedIsWritten(x, best.archive);
        WrittenIsLeast(x, s[best.archive], best.archive, pr, p, best.priority);
        BestIsLeast(Roles(r, s[best.archive]));
      }
    }
  }

  // ---------- A project that shows it ----------

  lemma {:induction false} ListAll(m: map<Path, Library>) returns (libs: seq<Library>)
    requires forall n <- m :: m[n].name == n
    ensures Lists(libs, m)
  {
    if m == map[] {
      return [];
    }
    var n :| n in m;
    var rest := ListAll(m - {n});
    libs := [m[n]] + rest;
    assert forall lib <- rest :: lib.name in m - {n};
    forall k | k in m
      ensures m[k] in libs
    {
      assert k != n ==> (m - {n})[k] in rest;
    }
  }

  /** The rules that leave out what the patterns do, and one file. */
  function LeavingOut(patterns: Patterns, file: Path): Matcher {
    (p, q, _) => patterns(p) || q == file
  }

  lemma ThreeFiles(u: Path, p: Path, w: Path) returns (t: Tree)
    requires u != [] && p != [] && w != []
    requires !(u < p) && !(p < u) && !(u < w) && !(w < u) && !(p < w) && !(w < p)
    ensures Worktree.Valid(t)
    ensures forall q :: IsFile(t, q) <==> q in {u, p, w}
    ensures forall q <- t :: q <= u || q <= p || q <= w
  {
    hide Worktree.Valid, IsFile, Grown, Files;
    OnlyFiles(Empty({u, p, w}));
    t := Grown(Files(Empty({u, p, w})));
  }

  lemma InTree(t: Tree, p: Path)
    requires IsFile(t, p)
    ensures p in t && t[p].File?
  {
  }

  /** The project that holds the function's file, p and w only, and leaves the function's file out where it can. */
  lemma Witness(patterns: Patterns, info: SourceInfo, p: Path, w: Path) returns (x: Project)
    requires Scanned(info) && p != [] && w != []
    requires !(p < info.path) && !(info.path < p) && !(w < info.path) && !(info.path < w) && !(p < w) && !(w < p)
    ensures x.Valid() && x.info == info && x.matcher == LeavingOut(patterns, info.path)
    ensures forall q :: IsFile(x.tree, q) <==> q in {info.path, p, w}
    ensures forall q <- x.tree :: q <= info.path || q <= p || q <= w
  {
    hide Worktree.Valid, IsFile;
    var t := ThreeFiles(info.path, p, w);
    assert IsFile(t, info.path);
    InTree(t, info.path);
    AncestorIsDir(t, info.path, 2);
    assert info.path[..2] == FUNCTIONS;
    var libs := ListAll(LibrariesByName(t));
    x := Project(t, LeavingOut(patterns, info.path), info, libs);
  }

  /** There no library replaces that of p. */
  lemma NotReplaced(x: Project, p: Path, w: Path)
    requires x.Valid() && SharedLibrary(p).Some? && (w == x.info.path || w == x.info.Dir() + p)
    requires forall q <- x.tree :: q <= x.info.path || q <= p || q <= w
    ensures !Replaced(x.Rules(), SharedLibrary(p).value)
  {
    hide Lists, LibrariesByName, Worktree.Valid;
    var name := SharedLibrary(p).value.name;
    var root := FUNCTIONS + name;
    FunctionsLibsAreRoots(x, name);
    LibraryApart(x.info, p);
    if IsRoot(x.tree, FUNCTIONS, root) {
      assert root[2] == name[0] && |root| == 3;
      assert FUNCTIONS < w && !Underscored(w[2]);
      assert !(root <= w) && !(root <= x.info.path);
      assert root <= p;
    }
  }

  lemma KeptThere(patterns: Patterns, x: Project, p: Path)
    requires x.Valid() && SharedLibrary(p).Some? && x.matcher == LeavingOut(patterns, x.info.path)
    requires KeptInLibrary(patterns, p)
    ensures LibraryKeeps(x.Rules(), SharedLibrary(p).value, p)
  {
    hide Lists, LibrariesByName, Worktree.Valid, FunctionRole, ManifestRoles, SharedLibrary;
    LibraryApart(x.info, p);
    assert forall i | 0 <= i <= |p| :: p[..i] != x.info.path;
  }

  /** There p has its library's role. */
  lemma LibraryPlays(patterns: Patterns, x: Project, p: Path, w: Path) returns (l: nat)
    requires x.Valid() && SharedLibrary(p).Some? && (w == x.info.path || w == x.info.Dir() + p)
    requires forall q <- x.tree :: q <= x.info.path || q <= p || q <= w
    requires x.matcher == LeavingOut(patterns, x.info.path) && KeptInLibrary(patterns, p)
    ensures LibraryRole(x.Rules(), p) == [Role(LibraryArchive(p), l)] && l >= PRIORITY_FUNCTIONS_LIB
    ensures Plays(x.Rules(), p, LibraryArchive(p), l)
  {
    hide Lists, LibrariesByName, Worktree.Valid, FunctionRole, ManifestRoles, LibraryKeeps, Replaced, SharedLibrary,
         KeptInLibrary;
    NotReplaced(x, p, w);
    LibraryApart(x.info, p);
    KeptThere(patterns, x, p);
    var ref := SharedLibrary(p).value;
    assert LibraryArchive(p) != [];
    l := if FUNCTIONS < ref.root then PRIORITY_FUNCTIONS_LIB else PRIORITY_ELSEWHERE_LIB;
  }

  /** There the first role of a manifest from above that is in a library is the manifest's. */
  lemma ManifestFirst(x: Project, p: Path) returns (k: nat)
    requires x.Valid() && ManifestAbove(x.info, p) && SharedLibrary(p).Some?
    requires !x.info.isDir ==> !(FUNCTIONS < p && p[2..] in SafeManifests(x.info.manifests))
    ensures Best(Roles(x.Rules(), p)) == Some(Role(p, k)) && k > 1
  {
    hide Lists, LibrariesByName, Worktree.Valid, SharedLibrary, ManifestRoles, LibraryRole;
    var r := x.Rules();
    SafeNamesNotEmpty(x.info.manifests);
    var d, n :| d < x.info.Dir() && n in SafeManifests(x.info.manifests) && p == d + n;
    RoleOfManifest(r, r.manifests, d, n, p);
    BestIsLeast(Roles(r, p));
    var best := Best(Roles(r, p)).value;
    k := best.priority;
    assert Plays(r, p, p, ManifestPriority(r.sourceDir, d)) && k <= ManifestPriority(r.sourceDir, d);
    assert Plays(r, p, best.archive, k);
    LibraryApart(x.info, p);
    var e, o := RoleKinds(r, p, best.archive, k);
    assert k > 0;
    assert e <= r.sourceDir && p == e + o;
    Dropped(e, o);
  }

  /** What is in the archive at a before p is fed instead of it. */
  lemma NotFed(x: Project, p: Path, w: Path, a: Path, k: nat, j: nat)
    requires x.Valid() && IsFile(x.tree, w) && Plays(x.Rules(), w, a, j) && j < k
    requires Best(Roles(x.Rules(), p)) == Some(Role(a, k))
    ensures !InputPath(x.Rules(), x.Selection(), p).feeds
  {
    hide Worktree.Valid, Lists, LibrariesByName, Keeps, FunctionLayer, ManifestLayers, LibraryLayer, SharedLibrary,
         FunctionsIsNoFile, LibraryRole, ManifestRoles, FunctionRole;
    SomethingWins(x, w, a, j);
    var pr := SelectedIsWritten(x, a);
    var winner := x.Selection()[a];
    WrittenIsLeast(x, winner, a, pr, w, j);
    BestIsLeast(Roles(x.Rules(), p));
    BestIsLeast(Roles(x.Rules(), winner));
    assert Role(a, pr) in Roles(x.Rules(), winner);
  }

  lemma ButWritten(x: Project, p: Path, b: Path, l: nat)
    requires x.Valid() && IsFile(x.tree, p) && Plays(x.Rules(), p, b, l)
    requires forall q, k | IsFile(x.tree, q) && q != p :: !Plays(x.Rules(), q, b, k)
    ensures p in x.Selection().Values
  {
    SomethingWins(x, p, b, l);
    var pr := SelectedIsWritten(x, b);
    assert Plays(x.Rules(), x.Selection()[b], b, pr);
  }

  lemma NotExact(x: Project, p: Path)
    requires x.Valid() && IsFile(x.tree, p) && p in x.Selection().Values
    requires !InputPath(x.Rules(), x.Selection(), p).feeds
    ensures !Exact(x)
  {
  }

  /** A file that plays at b only as one of the function, or as a manifest, and is neither there, does not. */
  lemma PlaysNotAt(x: Project, q: Path, b: Path)
    requires x.Valid() && SharedLibrary(q).None? && !ArchivedAs(x.info, q, b)
    requires forall k :: Role(b, k) !in FunctionRole(x.Rules(), q)
    ensures forall k :: !Plays(x.Rules(), q, b, k)
  {
    hide Lists, LibrariesByName, Worktree.Valid, FunctionRole, ManifestRoles;
    var r := x.Rules();
    SafeNamesNotEmpty(x.info.manifests);
    if k :| Plays(r, q, b, k) {
      var d, n := RoleKinds(r, q, b, k);
    }
  }

  /** The function's file takes the place of the manifest beside it, which is written as one from above. */
  lemma TakenByFunctionFails(patterns: Patterns, info: SourceInfo, p: Path) returns (x: Project)
    requires Scanned(info) && ManifestAbove(info, p) && TakenByFunction(info, p)
    ensures x.Valid() && x.info == info && IsFile(x.tree, info.path) && Includes(x.matcher, patterns) && !Exact(x)
  {
    hide SharedLibrary, LibraryRole, ManifestRoles, Lists, LibrariesByName, Worktree.Valid, TakenInLibrary, Roles, Best,
         ArchivedAs, Exact, InputPath, Selection, SafeArchivePath, Keeps, Plays;
    var n := p[2..];
    assert FUNCTIONS + n == p && !(p < info.path);
    x := Witness(patterns, info, p, p);
    var r := x.Rules();
    SafeNamesNotEmpty(info.manifests);
    assert FunctionRole(r, info.path) == [Role(n, 0)];
    FunctionPlays(r, info.path, n, 0);
    BesideFirst(x, p, n);
    NotFed(x, p, info.path, n, 1, 0);
    var d, o :| d < info.Dir() && o in SafeManifests(info.manifests) && p == d + o;
    ManifestPlays(r, d, o, p);
    FunctionOutsideLibraries(info, info.path);
    FileArchivedShort(info, p);
    PlaysNotAt(x, info.path, p);
    ButWritten(x, p, p, ManifestPriority(r.sourceDir, d));
    NotExact(x, p);
  }

  lemma FunctionPlays(r: Rules, q: Path, a: Path, k: nat)
    requires Role(a, k) in FunctionRole(r, q)
    ensures Plays(r, q, a, k)
  {
  }

  lemma ManifestPlays(r: Rules, d: Path, n: Path, a: Path)
    requires ManifestPlace(r.sourceDir, r.manifests, d, n, a) && n != []
    ensures Plays(r, d + n, a, ManifestPriority(r.sourceDir, d))
  {
    RoleOfManifest(r, r.manifests, d, n, a);
  }

  lemma BesideFirst(x: Project, p: Path, n: Path)
    requires x.Valid() && !x.info.isDir && p == FUNCTIONS + n && n != [] && n in SafeManifests(x.info.manifests)
    requires p != x.info.path
    ensures Best(Roles(x.Rules(), p)) == Some(Role(n, 1))
  {
    hide Lists, LibrariesByName, Worktree.Valid, SharedLibrary, ManifestRoles, LibraryRole;
    var r := x.Rules();
    SafeNamesNotEmpty(x.info.manifests);
    assert x.info.Dir() == FUNCTIONS;
    RoleOfManifest(r, r.manifests, FUNCTIONS, n, n);
    BestIsLeast(Roles(r, p));
    var best := Best(Roles(r, p)).value;
    assert Plays(r, p, best.archive, best.priority);
    var d, m := RoleKinds(r, p, best.archive, best.priority);
    assert d == FUNCTIONS && (d + m)[2..] == m && p[2..] == n;
  }

  /** The file of a function that is one file is archived as a manifest at its name or at its path. */
  lemma FileArchivedShort(info: SourceInfo, a: Path)
    requires Scanned(info) && !info.isDir && |a| >= 3 && a != info.path
    ensures !ArchivedAs(info, info.path, a)
  {
    SafeNamesNotEmpty(info.manifests);
    forall d, n | ManifestPlace(info.Dir(), SafeManifests(info.manifests), d, n, a)
      ensures info.path != d + n
    {
      assert d == info.Dir() ==> |d + n| == 2 + |a|;
    }
  }

  /** A file of the function's directory takes the place of the manifest, which is written as one of a library. */
  lemma TakenInLibraryFails(patterns: Patterns, info: SourceInfo, p: Path) returns (x: Project)
    requires Scanned(info) && ManifestAbove(info, p) && p != [] && TakenInLibrary(patterns, info, p)
    ensures x.Valid() && x.info == info && IsFile(x.tree, info.path) && Includes(x.matcher, patterns) && !Exact(x)
  {
    hide Exact, TakenByFunction, SharedLibrary, LibraryRole, ManifestRoles, Lists, LibrariesByName, Worktree.Valid,
         ManifestAbove, ArchivedAs, Roles, Best;
    var b := LibraryArchive(p);
    LibraryApart(info, p);
    var w := if !info.isDir && EntrypointOf(info) == p then info.path else info.Dir() + p;
    assert |w| > |p| || w == info.path;
    x := Witness(patterns, info, p, w);
    var l := LibraryPlays(patterns, x, p, w);
    var k := ManifestFirst(x, p);
    var j := ShadowPlays(patterns, x, p, w);
    NotFed(x, p, w, p, k, j);
    FunctionElsewhere(patterns, x, p);
    if w != info.path {
      ShadowElsewhere(x, p, w);
    }
    ButWritten(x, p, b, l);
    NotExact(x, p);
  }

  lemma EntryPlays(x: Project, p: Path)
    requires x.Valid() && p != [] && !x.info.isDir && EntrypointOf(x.info) == p
    ensures FunctionRole(x.Rules(), x.info.path) == [Role(p, 0)]
  {
    hide Lists, LibrariesByName, Worktree.Valid, SafeManifests, FunctionsLibs;
  }

  lemma KeptPlays(patterns: Patterns, x: Project, p: Path, w: Path)
    requires x.Valid() && p != [] && x.info.isDir && w == x.info.Dir() + p && !(x.info.path <= w)
    requires KeptInFunction(patterns, x.info, w) && x.matcher == LeavingOut(patterns, x.info.path)
    ensures FunctionRole(x.Rules(), w) == [Role(p, 0)]
  {
    hide Lists, LibrariesByName, Worktree.Valid, SafeManifests, FunctionsLibs;
    assert w[|x.info.Dir()|..] == p && x.info.Dir() < w;
    assert forall i | 0 <= i <= |w| :: w[..i] != x.info.path;
  }

  lemma ShadowPlays(patterns: Patterns, x: Project, p: Path, w: Path) returns (j: nat)
    requires x.Valid() && p != [] && TakenInLibrary(patterns, x.info, p)
    requires x.matcher == LeavingOut(patterns, x.info.path)
    requires w == if !x.info.isDir && EntrypointOf(x.info) == p then x.info.path else x.info.Dir() + p
    ensures j <= 1 && Plays(x.Rules(), w, p, j)
  {
    hide SharedLibrary, LibraryRole, ManifestRoles, Lists, LibrariesByName, Worktree.Valid, ArchivedAs, LeavingOut,
         KeptInLibrary, KeptInFunction, Keeps, LibraryArchive, FunctionRole, SafeArchivePath;
    var r := x.Rules();
    LibraryApart(x.info, p);
    if w == x.info.path {
      EntryPlays(x, p);
      j := 0;
    } else if x.info.isDir && KeptInFunction(patterns, x.info, w) {
      KeptPlays(patterns, x, p, w);
      j := 0;
    } else {
      SafeNamesNotEmpty(x.info.manifests);
      RoleOfManifest(r, r.manifests, x.info.Dir(), p, p);
      j := 1;
    }
  }

  lemma FunctionElsewhere(patterns: Patterns, x: Project, p: Path)
    requires x.Valid() && p != [] && TakenInLibrary(patterns, x.info, p)
    requires x.matcher == LeavingOut(patterns, x.info.path)
    ensures forall k :: !Plays(x.Rules(), x.info.path, LibraryArchive(p), k)
  {
    hide SharedLibrary, LibraryRole, ManifestRoles, Lists, LibrariesByName, Worktree.Valid, ArchivedAs;
    LibraryApart(x.info, p);
    assert x.info.isDir ==> FunctionRole(x.Rules(), x.info.path) == [];
    PlaysNotAt(x, x.info.path, LibraryArchive(p));
  }

  lemma ShadowElsewhere(x: Project, p: Path, w: Path)
    requires x.Valid() && SharedLibrary(p).Some? && w == x.info.Dir() + p && w != x.info.path
    ensures forall k :: !Plays(x.Rules(), w, LibraryArchive(p), k)
  {
    hide SharedLibrary, LibraryRole, ManifestRoles, Lists, LibrariesByName, Worktree.Valid;
    LibraryApart(x.info, p);
    var b := LibraryArchive(p);
    Dropped(x.info.Dir(), p);
    forall d, n | ManifestPlace(x.info.Dir(), SafeManifests(x.info.manifests), d, n, b)
      ensures w != d + n
    {
      Dropped(d, n);
    }
    PlaysNotAt(x, w, b);
  }

  /**
   The prediction is exact in every project that has the function's file, and whose rules leave out at least what some
   patterns do, if and only if no path can be misjudged. A path can be when it is that of a manifest from above the
   function's directory, and either the function is one file that takes its place as a manifest beside it, or it is in a
   library as well and something in the function's directory takes its place as a manifest, but not as a library file.
   */
  lemma PredictionExactlyWhen(patterns: Patterns, info: SourceInfo)
    requires Scanned(info)
    ensures (forall x: Project |
               x.Valid() && x.info == info && IsFile(x.tree, info.path) && Includes(x.matcher, patterns) :: Exact(x))
            <==> forall p :: !Misjudged(patterns, info, p)
  {
    hide Exact, TakenByFunction, TakenInLibrary, ManifestAbove, Includes;
    if p :| Misjudged(patterns, info, p) {
      if TakenByFunction(info, p) {
        var x := TakenByFunctionFails(patterns, info, p);
      } else {
        var x := TakenInLibraryFails(patterns, info, p);
      }
    } else {
      forall x: Project | x.Valid() && x.info == info && IsFile(x.tree, info.path) && Includes(x.matcher, patterns)
        ensures Exact(x)
      {
        PredictionIsExact(patterns, x);
      }
    }
  }

  /** Plain names are never misjudged. */
  lemma PlainNamesExact(x: Project)
    requires x.Valid() && IsFile(x.tree, x.info.path) && PlainNames(x.info)
    ensures Exact(x)
  {
    hide Exact, SharedLibrary, SafeManifests, KeptInLibrary, KeptInFunction, ArchivedAs, EntrypointOf, Lists,
         LibrariesByName, Worktree.Valid;
    PlainNamesApart(x.info);
    var none: Patterns := _ => false;
    forall p
      ensures !Misjudged(none, x.info, p)
    {
      if d, n :| d < x.info.Dir() && n in SafeManifests(x.info.manifests) && p == d + n {
        assert SharedLibrary(p).None? && (!x.info.isDir ==> |p| <= 2);
      }
    }
    PredictionIsExact(none, x);
  }
}
