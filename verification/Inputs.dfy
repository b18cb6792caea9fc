/**
 Telling from a path alone whether packaging a function reads the file there, and which file takes its
 place in the archive (internal/function/inputs.go).
 */
module Inputs {
  import opened Wrappers
  import opened Worktree
  import opened DirectoryReader
  import opened Scanner
  import opened Packager

  const PRIORITY_FUNCTION := 0
  const PRIORITY_MANIFEST := 1
  const PRIORITY_FUNCTIONS_LIB := 1000
  const PRIORITY_ELSEWHERE_LIB := 1001

  /** inputRules: all that the role of a path depends on. */
  datatype Rules = Rules(isDir: bool, source: Path, sourceDir: Path, entrypoint: Path,
                         manifests: seq<Path>, matcher: Matcher, functionsLibs: set<Path>)

  /** Where a file goes in the archive, and its rank among those that go there: the least wins. */
  datatype Role = Role(archive: Path, priority: nat)

  /** An archive path that is empty is no role. */
  function At(archive: Path, priority: nat): seq<Role> {
    if archive == [] then [] else [Role(archive, priority)]
  }

  function FunctionRole(r: Rules, p: Path): seq<Role> {
    if r.isDir then
      if r.sourceDir != [] && r.sourceDir < p && Keeps(r.matcher, r.sourceDir, r.sourceDir, p)
      then At(p[|r.sourceDir|..], PRIORITY_FUNCTION) else []
    else if p == r.source then At(r.entrypoint, PRIORITY_FUNCTION) else []
  }

  /** The directory in which p is the manifest called name. */
  function ManifestDir(name: Path, p: Path): Option<Path> {
    if |name| <= |p| && p[|p| - |name|..] == name then Some(p[..|p| - |name|]) else None
  }

  function ManifestRole(r: Rules, name: Path, p: Path): seq<Role> {
    match ManifestDir(name, p)
    case None => []
    case Some(dir) =>
      if dir <= r.sourceDir
      then At(ManifestArchive(r.sourceDir, dir, name), PRIORITY_MANIFEST + |r.sourceDir| - |dir|) else []
  }

  function ManifestRoles(r: Rules, names: seq<Path>, p: Path): seq<Role> {
    if names == [] then [] else ManifestRole(r, names[0], p) + ManifestRoles(r, names[1..], p)
  }

  /** Whether packaging keeps p, which is in the library ref, were the library not replaced. */
  predicate LibraryKeeps(r: Rules, ref: LibraryRef, p: Path) {
    if ref.root < p then Keeps(r.matcher, ref.root, [], p) else !r.matcher(ref.name, p, false)
  }

  predicate Replaced(r: Rules, ref: LibraryRef) {
    !(FUNCTIONS < ref.root) && ref.name in r.functionsLibs
  }

  function LibraryRole(r: Rules, p: Path): seq<Role> {
    match SharedLibrary(p)
    case None => []
    case Some(ref) =>
      if !LibraryKeeps(r, ref, p) || Replaced(r, ref) then []
      else At(ref.name + p[|ref.root|..],
              if FUNCTIONS < ref.root then PRIORITY_FUNCTIONS_LIB else PRIORITY_ELSEWHERE_LIB)
  }

  /** Every way packaging would read the file at p, in the order classify considers them. */
  function Roles(r: Rules, p: Path): seq<Role> {
    FunctionRole(r, p) + ManifestRoles(r, r.manifests, p) + LibraryRole(r, p)
  }

  /** The first role of the lowest priority. */
  function Best(roles: seq<Role>): Option<Role> {
    if roles == [] then None
    else
      var best, last := Best(roles[..|roles| - 1]), roles[|roles| - 1];
      if best.None? || last.priority < best.value.priority then Some(last) else best
  }

  /** When p has no role only because its library is replaced, the root of the one that replaced it. */
  function ReplacedBy(r: Rules, p: Path): Option<Path> {
    match SharedLibrary(p)
    case None => None
    case Some(ref) =>
      if Roles(r, p) == [] && LibraryKeeps(r, ref, p) && Replaced(r, ref)
      then Some(FUNCTIONS + ref.name) else None
  }

  lemma {:induction false} BestIsLeast(roles: seq<Role>)
    ensures Best(roles).None? <==> roles == []
    ensures Best(roles).Some? ==> Best(roles).value in roles
    ensures Best(roles).Some? ==> forall x <- roles :: Best(roles).value.priority <= x.priority
  {
    if roles != [] {
      BestIsLeast(roles[..|roles| - 1]);
      assert roles == roles[..|roles| - 1] + [roles[|roles| - 1]];
    }
  }

  /** ok, archive and priority name the best of the roles seen so far. */
  ghost predicate Stands(seen: seq<Role>, ok: bool, archive: Path, priority: nat) {
    Best(seen) == if ok then Some(Role(archive, priority)) else None
  }

  /** consider: the closure of classify that overwrites archive, priority and ok. */
  method Consider(ok: bool, archive: Path, priority: nat, a: Path, pr: nat, ghost seen: seq<Role>)
    returns (ok': bool, archive': Path, priority': nat)
    requires Stands(seen, ok, archive, priority)
    ensures Stands(seen + At(a, pr), ok', archive', priority')
  {
    ok', archive', priority' := ok, archive, priority;
    assert (seen + [Role(a, pr)])[..|seen|] == seen;
    if a != [] && (!ok || pr < priority) {
      ok', archive', priority' := true, a, pr;
    }
    assert seen + [] == seen;
  }

  /** classify: the archive path and priority of the file at p, and what replaced its library. */
  method Classify(r: Rules, p: Path) returns (ok: bool, archive: Path, priority: nat, replacedBy: Option<Path>)
    ensures Stands(Roles(r, p), ok, archive, priority)
    ensures replacedBy == ReplacedBy(r, p)
  {
    ok, archive, priority, replacedBy := false, [], 0, None;
    if r.isDir {
      if r.sourceDir != [] && r.sourceDir < p && Keeps(r.matcher, r.sourceDir, r.sourceDir, p) {
        ok, archive, priority := Consider(ok, archive, priority, p[|r.sourceDir|..], PRIORITY_FUNCTION, []);
      }
    } else if p == r.source {
      ok, archive, priority := Consider(ok, archive, priority, r.entrypoint, PRIORITY_FUNCTION, []);
    }
    ok, archive, priority := ConsiderManifests(r, p, ok, archive, priority);
    ghost var seen := FunctionRole(r, p) + ManifestRoles(r, r.manifests, p);
    assert seen + [] == seen;
    var library := SharedLibrary(p);
    if library.Some? {
      var name, root := library.value.name, library.value.root;
      var pr := if FUNCTIONS < root then PRIORITY_FUNCTIONS_LIB else PRIORITY_ELSEWHERE_LIB;
      if !LibraryKeeps(r, library.value, p) {
        // Packaging leaves it out.
      } else if pr == PRIORITY_ELSEWHERE_LIB && name in r.functionsLibs {
        // It is ReplacedBy, if nothing else gives p a role.
        replacedBy := Some(FUNCTIONS + name);
      } else {
        ok, archive, priority := Consider(ok, archive, priority, name + p[|root|..], pr, seen);
      }
    }
    BestIsLeast(Roles(r, p));
    if ok {
      replacedBy := None;
    }
  }

  /** classify's loop over the manifests. */
  method ConsiderManifests(r: Rules, p: Path, ok: bool, archive: Path, priority: nat)
    returns (ok': bool, archive': Path, priority': nat)
    requires Stands(FunctionRole(r, p), ok, archive, priority)
    ensures Stands(FunctionRole(r, p) + ManifestRoles(r, r.manifests, p), ok', archive', priority')
  {
    ok', archive', priority' := ok, archive, priority;
    ghost var seen, names := FunctionRole(r, p), r.manifests;
    for i := 0 to |r.manifests|
      invariant names == r.manifests[i..]
      invariant seen + ManifestRoles(r, names, p) == FunctionRole(r, p) + ManifestRoles(r, r.manifests, p)
      invariant Stands(seen, ok', archive', priority')
    {
      ok', archive', priority' := ConsiderManifest(r, p, r.manifests[i], ok', archive', priority', seen);
      Regroup(seen, ManifestRole(r, names[0], p), ManifestRoles(r, names[1..], p));
      seen, names := seen + ManifestRole(r, names[0], p), names[1..];
    }
    assert seen + [] == seen;
  }

  lemma Regroup(a: seq<Role>, b: seq<Role>, c: seq<Role>)
    ensures a + (b + c) == a + b + c
  {
  }

  method ConsiderManifest(r: Rules, p: Path, name: Path, ok: bool, archive: Path, priority: nat, ghost seen: seq<Role>)
    returns (ok': bool, archive': Path, priority': nat)
    requires Stands(seen, ok, archive, priority)
    ensures Stands(seen + ManifestRole(r, name, p), ok', archive', priority')
  {
    ok', archive', priority' := ok, archive, priority;
    assert seen + [] == seen;
    var found := ManifestDir(name, p);
    if found.None? {
      return;
    }
    var dir := found.value;
    if !(dir <= r.sourceDir) {
      return;
    }
    ok', archive', priority' := Consider(ok, archive, priority, ManifestArchive(r.sourceDir, dir, name),
                                         PRIORITY_MANIFEST + |r.sourceDir| - |dir|, seen);
  }

  /** What inputPaths answers for a path: whether it feeds the function, else what took its place. */
  datatype Answer = Answer(feeds: bool, shadowedBy: Option<Path>)

  function InputPath(r: Rules, sources: map<Path, Path>, p: Path): Answer {
    match Best(Roles(r, p))
    case None => Answer(false, ReplacedBy(r, p))
    case Some(role) =>
      if role.archive !in sources || sources[role.archive] == p then Answer(true, None)
      else
        var winner := sources[role.archive];
        var best := Best(Roles(r, winner));
        if best.Some? && best.value.priority < role.priority then Answer(false, Some(winner)) else Answer(true, None)
  }

  /** The function inputPaths returns, as it runs. */
  method AskInputPath(r: Rules, sources: map<Path, Path>, p: Path) returns (a: Answer)
    ensures a == InputPath(r, sources, p)
  {
    var ok, archive, priority, replacedBy := Classify(r, p);
    if !ok {
      return Answer(false, replacedBy);
    }
    if archive !in sources || sources[archive] == p {
      return Answer(true, None);
    }
    var winner := sources[archive];
    var wok, _, winnerPriority, _ := Classify(r, winner);
    if wok && winnerPriority < priority {
      return Answer(false, Some(winner));
    }
    a := Answer(true, None);
  }

  /** The names of the libraries directly in volcano/functions. */
  function FunctionsLibs(libs: seq<Library>): set<Path> {
    set lib | lib in libs && lib.path != [] && Parent(lib.path) == FUNCTIONS :: lib.name
  }

  /** inputPaths' rules for a function in a project whose libraries are libs. */
  method MakeRules(m: Matcher, info: SourceInfo, libs: seq<Library>) returns (r: Rules)
    requires info.path != []
    ensures r == RulesFor(m, info, libs)
  {
    var functionsLibs: set<Path> := {};
    for i := 0 to |libs|
      invariant functionsLibs == FunctionsLibs(libs[..i])
    {
      assert libs[..i + 1] == libs[..i] + [libs[i]];
      if libs[i].path != [] && Parent(libs[i].path) == FUNCTIONS {
        functionsLibs := functionsLibs + {libs[i].name};
      }
    }
    assert libs[..|libs|] == libs;
    var entrypoint: Path := [];
    if !info.isDir {
      // Empty, so no role, when the entrypoint is not safe.
      entrypoint := EntrypointOf(info);
    }
    r := Rules(info.isDir, info.path, info.Dir(), entrypoint, SafeManifests(info.manifests), m, functionsLibs);
  }

  function EntrypointOf(info: SourceInfo): Path {
    var entrypoint := SafeArchivePath(info.entrypoint);
    if entrypoint.Some? then entrypoint.value else []
  }

  function RulesFor(m: Matcher, info: SourceInfo, libs: seq<Library>): Rules
    requires info.path != []
  {
    Rules(info.isDir, info.path, info.Dir(), if info.isDir then [] else EntrypointOf(info),
          SafeManifests(info.manifests), m, FunctionsLibs(libs))
  }
}
