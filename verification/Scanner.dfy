/** Finding the shared libraries of a project (internal/function/scanner.go, sharedLibrary in inputs.go). */
module Scanner {
  import opened Wrappers
  import opened Strings
  import opened Worktree

  const VOLCANO: Path := ["volcano"]
  const FUNCTIONS: Path := ["volcano", "functions"]

  predicate Underscored(segment: string) {
    segment != "" && segment[0] == '_'
  }

  /** A shared library: where it is, the name it is archived under, and whether it is a directory. */
  datatype Library = Library(path: Path, name: Path, isDir: bool)

  // ---------- The path test ----------

  datatype LibraryRef = LibraryRef(name: Path, root: Path)

  /** The first underscored segment of p at i or later, |p| when there is none. */
  function FirstUnderscored(p: Path, i: nat): (k: nat)
    requires i <= |p|
    ensures i <= k <= |p|
    ensures forall j | i <= j < k :: !Underscored(p[j])
    ensures k < |p| ==> Underscored(p[k])
    decreases |p| - i
  {
    if i == |p| || Underscored(p[i]) then i else FirstUnderscored(p, i + 1)
  }

  /** sharedLibrary: the library a path is in, told from the path alone. */
  function SharedLibrary(p: Path): (ref: Option<LibraryRef>)
    ensures ref.Some? ==>
              && ref.value.root <= p && ref.value.name != []
              && ref.value.root == (if FUNCTIONS < ref.value.root then FUNCTIONS else VOLCANO) + ref.value.name
  {
    if FUNCTIONS < p then
      if Underscored(p[2]) then Some(LibraryRef([p[2]], p[..3])) else None
    else if VOLCANO < p then
      var k := FirstUnderscored(p, 1);
      if k < |p| then Some(LibraryRef(p[1..k + 1], p[..k + 1])) else None
    else None
  }

  /**
   Which library that is: under volcano/functions the entry at its top when that is underscored, and elsewhere under
   volcano the first underscored segment with all above it. A path without one is in none.
   */
  lemma LibrarySegment(p: Path, k: nat)
    requires k < |p|
    ensures SharedLibrary(p).Some? && SharedLibrary(p).value.root == p[..k + 1]
            <==> VOLCANO < p && 0 < k && Underscored(p[k]) && (if FUNCTIONS < p then k == 2
                                                               else forall i | 0 < i < k :: !Underscored(p[i]))
    ensures SharedLibrary(p).None? <==>
              || !(VOLCANO < p)
              || if FUNCTIONS < p then !Underscored(p[2]) else forall i | 0 < i < |p| :: !Underscored(p[i])
  {
    if VOLCANO < p && !(FUNCTIONS < p) {
      var first := FirstUnderscored(p, 1);
      assert |p[..k + 1]| == k + 1 && (first < |p| ==> |p[..first + 1]| == first + 1);
    } else if FUNCTIONS < p {
      assert |p[..k + 1]| == k + 1 && |p[..3]| == 3;
    }
  }

  // ---------- What the walk meets ----------

  /** Whether the walk of dir takes r for a library. */
  predicate IsRoot(t: Tree, dir: Path, r: Path) {
    && r in t && !t[r].Link? && dir < r && Underscored(r[|r| - 1])
    && (forall i | |dir| <= i < |r| - 1 :: !Underscored(r[i]))
    && (dir == VOLCANO ==> !(FUNCTIONS <= r))
    && (dir == FUNCTIONS ==> |r| == |dir| + 1)
  }

  function Roots(t: Tree, dir: Path, path: Path): set<Path> {
    set r | r in t && path <= r && IsRoot(t, dir, r)
  }

  /** The libraries at roots, all under dir, by name. */
  function Libraries(t: Tree, dir: Path, roots: set<Path>): map<Path, Library>
    requires forall r <- roots :: r in t && dir <= r
  {
    map n | n in Names(dir, roots) :: NameOfRoot(dir, roots, n); Library(dir + n, n, t[dir + n].Dir?)
  }

  function Names(dir: Path, roots: set<Path>): set<Path>
    requires forall r <- roots :: dir <= r
  {
    set r | r in roots :: r[|dir|..]
  }

  lemma NameOfRoot(dir: Path, roots: set<Path>, n: Path)
    requires forall r <- roots :: dir <= r
    ensures n in Names(dir, roots) <==> dir + n in roots
  {
    assert (dir + n)[|dir|..] == n;
    if n in Names(dir, roots) {
      var r :| r in roots && r[|dir|..] == n;
      assert r == dir + n;
    }
  }

  lemma LibrariesUnion(m: map<Path, Library>, t: Tree, dir: Path, a: set<Path>, b: set<Path>)
    requires forall r <- a + b :: r in t && dir <= r
    ensures m + Libraries(t, dir, a) + Libraries(t, dir, b) == m + Libraries(t, dir, a + b)
  {
    assert Names(dir, a + b) == Names(dir, a) + Names(dir, b);
  }

  lemma OneLibrary(m: map<Path, Library>, t: Tree, dir: Path, r: Path)
    requires r in t && dir <= r
    ensures m + Libraries(t, dir, {r}) == m[r[|dir|..] := Library(r, r[|dir|..], t[r].Dir?)]
  {
    assert dir + r[|dir|..] == r;
    assert Names(dir, {r}) == {r[|dir|..]};
  }

  // ---------- The walk ----------

  /** shared and indexByName, as the walk fills them. */
  datatype Found = Found(shared: seq<Library>, indexByName: map<Path, nat>)

  /** f holds the libraries of m, each once. */
  ghost predicate Holds(f: Found, m: map<Path, Library>) {
    && f.indexByName.Keys == m.Keys
    && (forall n <- m :: f.indexByName[n] < |f.shared| && f.shared[f.indexByName[n]] == m[n] && m[n].name == n)
    && (forall i | 0 <= i < |f.shared| :: f.shared[i].name in m && f.indexByName[f.shared[i].name] == i)
  }

  /** Records a library, in place of one of the same name. */
  method Record(f: Found, lib: Library, ghost m: map<Path, Library>) returns (f': Found)
    requires Holds(f, m)
    ensures Holds(f', m[lib.name := lib])
  {
    if lib.name in f.indexByName {
      f' := f.(shared := f.shared[f.indexByName[lib.name] := lib]);
    } else {
      f' := Found(f.shared + [lib], f.indexByName[lib.name := |f.shared|]);
    }
  }

  /** Whether the walk of dir gets to path. */
  ghost predicate Reached(t: Tree, dir: Path, path: Path) {
    && dir <= path && path in t
    && (forall i | |dir| <= i < |path| - 1 :: !Underscored(path[i]))
    && (dir == VOLCANO ==> !(FUNCTIONS < path))
    && (dir == FUNCTIONS ==> |path| <= |dir| + 1)
  }

  /** An underscored entry is a library, and nothing under it is one; a symlink is none. */
  lemma StopsAtRoot(t: Tree, dir: Path, path: Path)
    requires Worktree.Valid(t) && Reached(t, dir, path) && path != dir
    requires Underscored(path[|path| - 1]) && !(dir == VOLCANO && path == FUNCTIONS)
    ensures Roots(t, dir, path) == if t[path].Link? then {} else {path}
  {
    forall r | r in Roots(t, dir, path)
      ensures r == path
    {
      assert r[|path| - 1] == path[|path| - 1];
    }
  }

  /** No library lies at or under an entry the walk does not descend into. */
  lemma StopsShort(t: Tree, dir: Path, path: Path)
    requires Worktree.Valid(t) && Reached(t, dir, path) && (path == dir || !Underscored(path[|path| - 1]))
    requires !t[path].Dir? || (dir == FUNCTIONS && path != dir) || (dir == VOLCANO && path == FUNCTIONS)
    ensures Roots(t, dir, path) == {}
  {
    forall r | r in t && path <= r
      ensures !IsRoot(t, dir, r)
    {
      if !t[path].Dir? {
        NothingBelow(t, path, r);
      }
    }
  }

  /** Walks path and what is under it: the callback over filepath.WalkDir(dir). */
  method Visit(t: Tree, dir: Path, path: Path, found: Found, ghost m: map<Path, Library>) returns (found': Found)
    requires Worktree.Valid(t) && Reached(t, dir, path) && dir in {VOLCANO, FUNCTIONS}
    requires Holds(found, m)
    ensures Holds(found', m + Libraries(t, dir, Roots(t, dir, path)))
    decreases Subtree(t, path)
  {
    found' := found;
    var entry := t[path];
    if entry.Link? {
      if path == dir || !Underscored(path[|path| - 1]) {
        StopsShort(t, dir, path);
      } else {
        StopsAtRoot(t, dir, path);
      }
      return;
    }
    if dir == VOLCANO && path == FUNCTIONS {
      StopsShort(t, dir, path);
      return;
    }
    if path != dir {
      if Underscored(path[|path| - 1]) {
        StopsAtRoot(t, dir, path);
        OneLibrary(m, t, dir, path);
        found' := Record(found, Library(path, path[|dir|..], entry.Dir?), m);
        return;
      }
      if dir == FUNCTIONS && entry.Dir? {
        StopsShort(t, dir, path);
        return;
      }
    }
    if !entry.Dir? {
      StopsShort(t, dir, path);
      return;
    }
    found' := VisitChildren(t, dir, path, found, m);
  }

  method VisitChildren(t: Tree, dir: Path, path: Path, found: Found, ghost m: map<Path, Library>)
    returns (found': Found)
    requires Worktree.Valid(t) && Reached(t, dir, path) && dir in {VOLCANO, FUNCTIONS}
    requires t[path].Dir? && (path == dir || (dir == VOLCANO && path != FUNCTIONS && !Underscored(path[|path| - 1])))
    requires Holds(found, m)
    ensures Holds(found', m + Libraries(t, dir, Roots(t, dir, path)))
    decreases Subtree(t, path), 0
  {
    hide Holds, Libraries, Worktree.Valid;
    NoLibraries(m, t, dir);
    found' := found;
    var todo := Children(t, path);
    ghost var done: set<Path>, now, all := {}, m, Roots(t, dir, path);
    RootsBelow(t, dir, path);
    while todo != {}
      invariant todo <= Children(t, path)
      invariant Holds(found', now)
      invariant done + RootsIn(t, dir, path, todo) == all
      invariant now == m + Libraries(t, dir, done)
    {
      var child :| child in todo;
      SubtreeShrinks(t, child);
      RootsSplit(t, dir, path, todo, child);
      LibrariesUnion(m, t, dir, done, Roots(t, dir, child));
      found' := Visit(t, dir, child, found', now);
      now, done := now + Libraries(t, dir, Roots(t, dir, child)), done + Roots(t, dir, child);
      todo := todo - {child};
    }
    assert done == all;
  }

  lemma NoLibraries(m: map<Path, Library>, t: Tree, dir: Path)
    ensures m + Libraries(t, dir, {}) == m
  {
  }

  /** The roots under the children of path that are in todo. */
  function RootsIn(t: Tree, dir: Path, path: Path, todo: set<Path>): set<Path> {
    set r | r in Roots(t, dir, path) && |path| < |r| && r[..|path| + 1] in todo
  }

  lemma RootsBelow(t: Tree, dir: Path, path: Path)
    requires Worktree.Valid(t) && path in t && dir <= path
    requires path == dir || !Underscored(path[|path| - 1])
    ensures RootsIn(t, dir, path, Children(t, path)) == Roots(t, dir, path)
  {
    forall r | r in Roots(t, dir, path)
      ensures |path| < |r| && r[..|path| + 1] in Children(t, path)
    {
      assert r != path;
      ChildToward(t, path, r);
    }
  }

  lemma RootsSplit(t: Tree, dir: Path, path: Path, todo: set<Path>, child: Path)
    requires Reached(t, dir, path) && (path == dir || !Underscored(path[|path| - 1]))
    requires path == dir || (dir == VOLCANO && path != FUNCTIONS)
    requires child in todo && todo <= Children(t, path)
    ensures Reached(t, dir, child)
    ensures RootsIn(t, dir, path, todo) == Roots(t, dir, child) + RootsIn(t, dir, path, todo - {child})
  {
    assert child[..|path|] == path;
    forall i | |dir| <= i < |child| - 1
      ensures !Underscored(child[i])
    {
      assert child[i] == path[i];
    }
    forall r | r in Roots(t, dir, child)
      ensures r in Roots(t, dir, path) && r[..|path| + 1] == child
    {
      assert path <= child <= r;
    }
  }

  /** libs lists each library of m once. */
  ghost predicate Lists(libs: seq<Library>, m: map<Path, Library>) {
    && (forall lib <- libs :: lib.name in m && m[lib.name] == lib)
    && (forall n <- m :: m[n] in libs)
    && (forall i, j | 0 <= i < j < |libs| :: libs[i].name != libs[j].name)
  }

  /** A project's libraries by name: of two with a name, that in volcano/functions. */
  function LibrariesByName(t: Tree): map<Path, Library> {
    LibrariesOf(t, VOLCANO) + LibrariesOf(t, FUNCTIONS)
  }

  function LibrariesOf(t: Tree, dir: Path): map<Path, Library> {
    Libraries(t, dir, Roots(t, dir, dir))
  }

  /** Whether volcano/functions can be a functions directory at all: it is no plain file. */
  predicate FunctionsIsNoFile(t: Tree) {
    FUNCTIONS in t ==> t[FUNCTIONS].Dir? || t[FUNCTIONS].Link?
  }

  /** The name of a library written out. */
  function Name(lib: Library): string {
    Join(lib.name, "/")
  }

  predicate SortedByName(libs: seq<Library>) {
    forall i, j | 0 <= i < j < |libs| :: !Less(Name(libs[j]), Name(libs[i]))
  }

  /** sort.Slice by name. */
  method SortByName(libs: seq<Library>, ghost m: map<Path, Library>) returns (sorted: seq<Library>)
    requires Lists(libs, m)
    ensures Lists(sorted, m) && SortedByName(sorted)
  {
    hide Name;
    sorted := [];
    for i := 0 to |libs|
      invariant SortedByName(sorted) && (forall lib :: lib in sorted <==> lib in libs[..i])
      invariant forall j, k | 0 <= j < k < |sorted| :: sorted[j].name != sorted[k].name
    {
      assert libs[..i + 1] == libs[..i] + [libs[i]];
      sorted := InsertByName(sorted, libs[i]);
    }
    assert libs[..|libs|] == libs;
  }

  method InsertByName(sorted: seq<Library>, lib: Library) returns (out: seq<Library>)
    requires SortedByName(sorted) && forall other <- sorted :: other.name != lib.name
    requires forall j, k | 0 <= j < k < |sorted| :: sorted[j].name != sorted[k].name
    ensures SortedByName(out) && forall other :: other in out <==> other == lib || other in sorted
    ensures forall j, k | 0 <= j < k < |out| :: out[j].name != out[k].name
  {
    hide Name, Less;
    var k := |sorted|;
    while k > 0 && Less(Name(lib), Name(sorted[k - 1]))
      invariant 0 <= k <= |sorted| && forall j | k <= j < |sorted| :: Less(Name(lib), Name(sorted[j]))
    {
      k := k - 1;
    }
    forall j | 0 <= j < k
      ensures !Less(Name(lib), Name(sorted[j]))
    {
      if j < k - 1 {
        NotLessTransitive(Name(sorted[j]), Name(sorted[k - 1]), Name(lib));
      }
    }
    forall j | k <= j < |sorted|
      ensures !Less(Name(sorted[j]), Name(lib))
    {
      LessTotal(Name(lib), Name(sorted[j]));
    }
    out := sorted[..k] + [lib] + sorted[k..];
  }

  method FindSharedLibraries(t: Tree) returns (shared: seq<Library>)
    requires Worktree.Valid(t) && FunctionsIsNoFile(t)
    ensures Lists(shared, LibrariesByName(t))
    ensures forall i, j | 0 <= i < j < |shared| :: !Less(Join(shared[j].name, "/"), Join(shared[i].name, "/"))
  {
    var found := Found([], map[]);
    ghost var m: map<Path, Library> := map[];
    var searchDirs := [VOLCANO, FUNCTIONS];
    for i := 0 to |searchDirs|
      invariant Holds(found, m)
      invariant m == if i == 0 then map[] else if i == 1 then LibrariesOf(t, VOLCANO) else LibrariesByName(t)
    {
      var dir := searchDirs[i];
      if dir !in t {
        NoRoots(t, dir);
        continue;
      }
      found := Visit(t, dir, dir, found, m);
      m := m + LibrariesOf(t, dir);
    }
    HeldOnce(found, m);
    shared := SortByName(found.shared, m);
  }

  lemma HeldOnce(f: Found, m: map<Path, Library>)
    requires Holds(f, m)
    ensures Lists(f.shared, m)
  {
  }

  lemma NoRoots(t: Tree, dir: Path)
    requires Worktree.Valid(t) && dir !in t
    ensures Roots(t, dir, dir) == {} && LibrariesOf(t, dir) == map[]
  {
    forall r | r in Roots(t, dir, dir)
      ensures false
    {
      assert r[..|dir|] == dir;
      AncestorIsDir(t, r, |dir|);
    }
  }

  // ---------- The path test is what the walk meets ----------

  /**
   A file is in a library exactly when the walk meets a root at or above it, and sharedLibrary names the
   one root it meets it under.
   */
  lemma PathTestIsWalk(t: Tree, p: Path)
    requires Worktree.Valid(t) && IsFile(t, p)
    ensures match SharedLibrary(p)
            case Some(ref) =>
              var dir := if FUNCTIONS < ref.root then FUNCTIONS else VOLCANO;
              && ref.root <= p && IsRoot(t, dir, ref.root) && ref.root == dir + ref.name
              && forall d, r | d in {VOLCANO, FUNCTIONS} && IsRoot(t, d, r) && r <= p :: d == dir && r == ref.root
            case None =>
              forall d, r | d in {VOLCANO, FUNCTIONS} && IsRoot(t, d, r) :: !(r <= p)
  {
    forall d, r | d in {VOLCANO, FUNCTIONS} && IsRoot(t, d, r) && r <= p
      ensures SharedLibrary(p).Some? && SharedLibrary(p).value.root == r && (d == FUNCTIONS <==> FUNCTIONS < r)
    {
      RootTellsLibrary(t, d, r, p);
    }
    if SharedLibrary(p).Some? {
      var root := SharedLibrary(p).value.root;
      if |root| < |p| {
        AncestorIsDir(t, p, |root|);
      } else {
        assert root == p;
      }
    }
  }

  lemma RootTellsLibrary(t: Tree, dir: Path, r: Path, p: Path)
    requires dir in {VOLCANO, FUNCTIONS} && IsRoot(t, dir, r) && r <= p
    ensures SharedLibrary(p) == Some(LibraryRef(r[|dir|..], r))
    ensures dir == FUNCTIONS <==> FUNCTIONS < r
  {
    assert r == p[..|r|];
    if dir == FUNCTIONS {
      assert FUNCTIONS < p && p[2] == r[2] && |r| == 3;
      assert r[|dir|..] == [r[2]];
    } else {
      var k := FirstUnderscored(p, 1);
      assert forall i | 1 <= i < |r| :: p[i] == r[i];
      assert k == |r| - 1;
    }
  }
}
