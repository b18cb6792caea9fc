/**
 Packaging a function's source (internal/function/packager.go): its own files, the dependency
 manifests of the nearest directories first, then the shared libraries; the first file at an archive path
 keeps it.
 */
module Packager {
  import opened Wrappers
  import opened BlobFile
  import opened Strings
  import opened Worktree
  import opened DirectoryReader
  import opened Scanner

  // ---------- Archive paths ----------

  predicate NoName(part: string) {
    part == "" || part == "."
  }

  function DropEmpty(parts: seq<string>): (kept: seq<string>)
    ensures forall part <- kept :: part in parts && part != "" && part != "."
  {
    if parts == [] then []
    else (if NoName(parts[0]) then [] else [parts[0]]) + DropEmpty(parts[1..])
  }

  /** safeArchivePath: the cleaned relative path value spells, none when it is empty, absolute or escapes. */
  function SafeArchivePath(value: string): (r: Option<Path>)
    ensures r.Some? ==> r.value != [] && forall part <- r.value :: part !in {"", ".", ".."}
  {
    var parts := Split(value, '/');
    if value == "" || value[0] == '/' || ".." in parts || DropEmpty(parts) == [] then None
    else Some(DropEmpty(parts))
  }

  predicate SafePath(a: Path) {
    a != [] && forall part <- a :: part !in {"", ".", ".."} && '/' !in part
  }

  lemma {:induction false} SafePartsStay(a: Path)
    requires forall part <- a :: !NoName(part)
    ensures DropEmpty(a) == a
  {
    if a != [] {
      assert a[0] in a && forall part <- a[1..] :: part in a;
      SafePartsStay(a[1..]);
      assert a == [a[0]] + a[1..];
    }
  }

  lemma SpelledSplits(a: Path)
    requires SafePath(a)
    ensures Split(Join(a, "/"), '/') == a && DropEmpty(a) == a && Join(a, "/") != "" && Join(a, "/")[0] != '/'
  {
    JoinSplits(a, '/');
    SafePartsStay(a);
    assert a[0] in a;
    assert |a| > 1 ==> Join(a, "/")[0] == a[0][0];
  }

  /**
   Every path safeArchivePath gives is safe, and is the one that it gives for the path written out; every safe path
   is given for what it is written as. What is empty, absolute or has a ".." segment is refused, and what is left but
   has no other segment than "." and empty ones.
   */
  lemma SafeArchivePathReadsBack(value: string, a: Path)
    ensures SafeArchivePath(value).Some? ==> SafePath(SafeArchivePath(value).value)
    ensures SafePath(a) ==> SafeArchivePath(Join(a, "/")) == Some(a)
    ensures SafeArchivePath(value).Some? ==>
              SafeArchivePath(Join(SafeArchivePath(value).value, "/")) == SafeArchivePath(value)
    ensures SafeArchivePath(value).None? <==>
              || "/" <= value || ".." in Split(value, '/')
              || forall part <- Split(value, '/') :: NoName(part)
  {
    hide Join, Split;
    if SafePath(a) {
      SpelledSplits(a);
    }
    if SafeArchivePath(value).Some? {
      SpelledSplits(SafeArchivePath(value).value);
    }
    NothingDropped(Split(value, '/'));
    EmptySplits();
  }

  lemma {:induction false} DroppedApart(a: seq<string>, b: seq<string>)
    ensures DropEmpty(a + b) == DropEmpty(a) + DropEmpty(b)
  {
    if a == [] {
      assert a + b == b;
    } else {
      assert (a + b)[0] == a[0] && (a + b)[1..] == a[1..] + b;
      DroppedApart(a[1..], b);
    }
  }

  /**
   What more segments do to a path: an empty one and "." change nothing, ".." makes it unsafe, and another is at its
   end.
   */
  lemma SafeArchivePathMeans(value: string, last: string)
    requires value != "" && '/' !in last
    ensures SafeArchivePath(value + "/" + last)
         == if value[0] == '/' || ".." in Split(value, '/') || last == ".." then None
            else if last == "" || last == "." then SafeArchivePath(value)
            else Some((if SafeArchivePath(value).Some? then SafeArchivePath(value).value else []) + [last])
  {
    SplitLast(value, last, '/');
    DroppedApart(Split(value, '/'), [last]);
    assert DropEmpty([last]) == if NoName(last) then [] else [last] by {
      assert [last][1..] == [];
    }
    assert (value + "/" + last)[0] == value[0];
    assert DropEmpty(Split(value, '/')) + [] == DropEmpty(Split(value, '/'));
    hide Split, DropEmpty;
  }

  lemma EmptySplits()
    ensures Split("", '/') == [""]
  {
  }

  lemma {:induction false} NothingDropped(parts: seq<string>)
    ensures DropEmpty(parts) == [] <==> forall part <- parts :: NoName(part)
  {
    if parts != [] {
      NothingDropped(parts[1..]);
      assert parts[0] in parts;
      assert forall part <- parts :: part == parts[0] || part in parts[1..];
      assert [] + DropEmpty(parts[1..]) == DropEmpty(parts[1..]);
    }
  }

  /** One discovered function source, its path relative to the project directory. */
  datatype SourceInfo = SourceInfo(path: Path, isDir: bool, entrypoint: string, manifests: seq<string>) {
    function Dir(): Path
      requires path != []
    {
      Parent(path)
    }
  }

  /** The manifests of info that have a safe path, in order. */
  function SafeManifests(names: seq<string>): seq<Path> {
    if names == [] then []
    else
      var first := SafeArchivePath(names[0]);
      (if first.Some? then [first.value] else []) + SafeManifests(names[1..])
  }

  // ---------- The archive ----------

  datatype PackedFile = PackedFile(path: Path, content: seq<Byte>)

  /** archiveWriter: written is the archive, and files with archivePaths record it in order. */
  class ArchiveWriter {
    var added: set<Path>
    var files: seq<PackedFile>
    var archivePaths: seq<Path>
    ghost var written: map<Path, Path>

    ghost predicate Valid()
      reads this
    {
      added == written.Keys && Records(files, archivePaths, written)
    }

    constructor ()
      ensures Valid() && written == map[] && files == []
    {
      added, files, archivePaths, written := {}, [], [], map[];
    }

    /** The archive gains the file when its path is free, and is the same when it is not. */
    method Add(archivePath: Path, sourcePath: Path, content: seq<Byte>)
      requires Valid()
      modifies this
      ensures Valid()
      ensures written == map[archivePath := sourcePath] + old(written)
      ensures files == if archivePath in old(written) then old(files)
                       else old(files) + [PackedFile(sourcePath, content)]
    {
      if archivePath in added {
        assert written == map[archivePath := sourcePath] + written;
        return;
      }
      added := added + {archivePath};
      files := files + [PackedFile(sourcePath, content)];
      archivePaths := archivePaths + [archivePath];
      written := written[archivePath := sourcePath];
      assert written - {archivePath} == old(written);
      assert files[..|files| - 1] == old(files) && archivePaths[..|files| - 1] == old(archivePaths);
    }

    /** The archive as a map, whose values are the files recorded. */
    method Sources() returns (sources: map<Path, Path>)
      requires Valid()
      ensures sources == written
      ensures sources.Values == set f | f in files :: f.path
    {
      RecordsAt(files, archivePaths, written);
      sources := map[];
      for i := 0 to |files|
        invariant forall a <- sources :: a in written && sources[a] == written[a]
        invariant forall j | 0 <= j < i :: archivePaths[j] in sources
      {
        sources := sources[archivePaths[i] := files[i].path];
      }
    }
  }

  /** files were written at archivePaths, each path once, as written says. */
  ghost predicate Records(files: seq<PackedFile>, archivePaths: seq<Path>, written: map<Path, Path>) {
    var n := |files|;
    && |archivePaths| == n
    && if n == 0 then written == map[]
       else
         var last := archivePaths[n - 1];
         && last in written && written[last] == files[n - 1].path
         && Records(files[..n - 1], archivePaths[..n - 1], written - {last})
  }

  lemma {:induction false} RecordsAt(files: seq<PackedFile>, archivePaths: seq<Path>, written: map<Path, Path>)
    requires Records(files, archivePaths, written)
    ensures |archivePaths| == |files|
    ensures forall i | 0 <= i < |files| :: archivePaths[i] in written && written[archivePaths[i]] == files[i].path
    ensures forall a <- written :: a in archivePaths
    ensures written.Values == set f | f in files :: f.path
  {
    var n := |files|;
    if n > 0 {
      var last := archivePaths[n - 1];
      RecordsAt(files[..n - 1], archivePaths[..n - 1], written - {last});
      assert written == (written - {last})[last := files[n - 1].path];
      assert files == files[..n - 1] + [files[n - 1]];
    }
  }

  // ---------- What goes into the archive ----------

  /** The files of a directory, archived at their paths under it below dest. */
  function Shifted(files: set<Path>, root: Path, dest: Path): map<Path, Path> {
    map a | a in (set q | q in files && root <= q :: dest + q[|root|..]) :: root + a[|dest|..]
  }

  lemma ShiftedAt(files: set<Path>, root: Path, dest: Path, a: Path)
    ensures a in Shifted(files, root, dest) <==> dest <= a && root + a[|dest|..] in files
  {
    var keys := set q | q in files && root <= q :: dest + q[|root|..];
    if a in keys {
      var q :| q in files && root <= q && dest + q[|root|..] == a;
      assert root + a[|dest|..] == q;
    }
    if dest <= a && root + a[|dest|..] in files {
      var q := root + a[|dest|..];
      assert q[|root|..] == a[|dest|..] && dest + q[|root|..] == a;
    }
  }

  function FunctionLayer(t: Tree, m: Matcher, info: SourceInfo): map<Path, Path>
    requires info.path != []
  {
    if info.isDir then Shifted(KeptUnder(Walk(t, m, info.Dir(), info.Dir()), info.Dir()), info.Dir(), [])
    else
      var entrypoint := SafeArchivePath(info.entrypoint);
      if IsFile(t, info.path) && entrypoint.Some? then map[entrypoint.value := info.path] else map[]
  }

  /** Where the manifest called name in directory d is archived, for a function in sourceDir. */
  function ManifestArchive(sourceDir: Path, d: Path, name: Path): Path {
    if d == sourceDir then name else d + name
  }

  /** The manifest called name in d, if it is there. */
  function Manifest(t: Tree, sourceDir: Path, d: Path, name: Path): map<Path, Path> {
    if IsFile(t, d + name) then map[ManifestArchive(sourceDir, d, name) := d + name] else map[]
  }

  /** The manifests found in d, the first name to hold an archive path keeping it. */
  function ManifestLayer(t: Tree, sourceDir: Path, d: Path, names: seq<Path>): map<Path, Path> {
    if names == [] then map[]
    else ManifestLayer(t, sourceDir, d, names[1..]) + Manifest(t, sourceDir, d, names[0])
  }

  /** The manifests found from d up to the project directory, the nearest first. */
  function ManifestLayers(t: Tree, sourceDir: Path, d: Path, names: seq<Path>): map<Path, Path> {
    if d == [] then ManifestLayer(t, sourceDir, d, names)
    else ManifestLayers(t, sourceDir, Parent(d), names) + ManifestLayer(t, sourceDir, d, names)
  }

  /** The files of one library that packaging adds. */
  function LibraryFiles(t: Tree, m: Matcher, lib: Library): map<Path, Path> {
    if lib.isDir then Shifted(KeptUnder(Walk(t, m, lib.path, []), lib.path), lib.path, lib.name)
    else if IsFile(t, lib.path) && !m(lib.name, lib.path, false) then map[lib.name := lib.path]
    else map[]
  }

  /** The libraries' files, the first library to hold an archive path keeping it. */
  function LibraryLayer(t: Tree, m: Matcher, libs: seq<Library>): map<Path, Path> {
    if libs == [] then map[] else LibraryLayer(t, m, libs[1..]) + LibraryFiles(t, m, libs[0])
  }

  /** Which project file packaging writes at each archive path. */
  function Selection(t: Tree, m: Matcher, info: SourceInfo, libs: seq<Library>): map<Path, Path>
    requires info.path != []
  {
    LibraryLayer(t, m, libs)
    + ManifestLayers(t, info.Dir(), info.Dir(), SafeManifests(info.manifests))
    + FunctionLayer(t, m, info)
  }

  predicate FitsArchive(t: Tree, m: Matcher, root: Path, matchRoot: Path)
    requires matchRoot <= root
  {
    root in t && |KeptUnder(Walk(t, m, root, matchRoot), root)| <= MAX_PACKAGE_FILES
  }

  /** When packaging succeeds. */
  predicate Packageable(t: Tree, m: Matcher, info: SourceInfo, libs: seq<Library>)
    requires info.path != []
  {
    && (if info.isDir then FitsArchive(t, m, info.Dir(), info.Dir())
        else IsFile(t, info.path) && SafeArchivePath(info.entrypoint).Some?)
    && (forall name <- info.manifests :: SafeArchivePath(name).Some?)
    && (forall lib <- libs :: lib.isDir ==> FitsArchive(t, m, lib.path, []))
  }

  // ---------- Packaging ----------

  /** Every recorded file is a project file with the content it has on disk. */
  ghost predicate FromDisk(t: Tree, files: seq<PackedFile>) {
    forall f <- files :: IsFile(t, f.path) && f.content == t[f.path].content
  }

  /** Adding a first and then b under what is there is adding them together. */
  lemma Stacked(b: map<Path, Path>, a: map<Path, Path>, base: map<Path, Path>)
    ensures b + a + base == b + (a + base)
  {
  }

  /** addFiles: the archive gains files at their paths under destPrefix, wherever those are free, in any order. */
  method AddFiles(w: ArchiveWriter, t: Tree, srcRoot: Path, destPrefix: Path, files: map<Path, seq<Byte>>,
                  ghost kept: set<Path>)
    requires w.Valid() && FromDisk(t, w.files)
    requires (forall q <- kept :: srcRoot <= q && IsFile(t, q)) && files == Contents(t, srcRoot, kept)
    modifies w
    ensures w.Valid() && FromDisk(t, w.files)
    ensures w.written == Shifted(kept, srcRoot, destPrefix) + old(w.written)
  {
    var todo := files.Keys;
    ghost var waiting, all := kept, Shifted(kept, srcRoot, destPrefix) + w.written;
    while todo != {}
      invariant waiting <= kept && todo == Relative(srcRoot, waiting)
      invariant w.Valid() && FromDisk(t, w.files)
      invariant all == Shifted(waiting, srcRoot, destPrefix) + w.written
    {
      var r :| r in todo;
      AddingOne(t, kept, waiting, srcRoot, destPrefix, r, w.written);
      w.Add(destPrefix + r, srcRoot + r, files[r]);
      waiting := waiting - {srcRoot + r};
      todo := todo - {r};
    }
    NothingShifted(waiting, srcRoot, destPrefix, w.written);
  }

  lemma TakeOne(files: set<Path>, root: Path, r: Path)
    requires (forall q <- files :: root <= q) && r in Relative(root, files)
    ensures root + r in files
    ensures Relative(root, files - {root + r}) == Relative(root, files) - {r}
  {
    Joined(root, files, r);
    forall n | n in Relative(root, files)
      ensures n in Relative(root, files - {root + r}) <==> n != r
    {
      Joined(root, files, n);
      Joined(root, files - {root + r}, n);
    }
  }

  lemma ShiftedTake(files: set<Path>, root: Path, dest: Path, r: Path)
    requires root + r in files
    ensures Shifted(files, root, dest) == Shifted(files - {root + r}, root, dest) + map[dest + r := root + r]
  {
    assert (dest + r)[|dest|..] == r;
    forall a
      ensures a in Shifted(files, root, dest) <==> a in Shifted(files - {root + r}, root, dest) || a == dest + r
    {
      ShiftedAt(files, root, dest, a);
      ShiftedAt(files - {root + r}, root, dest, a);
      if dest <= a && root + a[|dest|..] == root + r {
        assert a[|dest|..] == (root + a[|dest|..])[|root|..] == r;
        assert a == dest + a[|dest|..];
      }
    }
  }

  lemma AddingOne(t: Tree, kept: set<Path>, waiting: set<Path>, root: Path, dest: Path, r: Path,
                  base: map<Path, Path>)
    requires (forall q <- kept :: root <= q && IsFile(t, q)) && waiting <= kept && r in Relative(root, waiting)
    ensures r in Contents(t, root, kept) && IsFile(t, root + r)
    ensures Contents(t, root, kept)[r] == t[root + r].content
    ensures Relative(root, waiting - {root + r}) == Relative(root, waiting) - {r}
    ensures Shifted(waiting, root, dest) + base
         == Shifted(waiting - {root + r}, root, dest) + (map[dest + r := root + r] + base)
  {
    TakeOne(waiting, root, r);
    ShiftedTake(waiting, root, dest, r);
    Joined(root, kept, r);
    Stacked(Shifted(waiting - {root + r}, root, dest), map[dest + r := root + r], base);
  }

  lemma NothingShifted(files: set<Path>, root: Path, dest: Path, base: map<Path, Path>)
    requires (forall q <- files :: root <= q) && Relative(root, files) == {}
    ensures files == {} && Shifted(files, root, dest) + base == base
  {
    assert forall q <- files :: q[|root|..] in Relative(root, files);
  }

  /** The manifests one directory holds, false when a name is unsafe. */
  method AddManifestsOf(w: ArchiveWriter, t: Tree, sourceDir: Path, d: Path, names: seq<string>) returns (ok: bool)
    requires w.Valid() && FromDisk(t, w.files)
    modifies w
    ensures w.Valid() && FromDisk(t, w.files)
    ensures ok <==> forall name <- names :: SafeArchivePath(name).Some?
    ensures ok ==> w.written == ManifestLayer(t, sourceDir, d, SafeManifests(names)) + old(w.written)
  {
    hide SafeArchivePath;
    ghost var all := ManifestLayer(t, sourceDir, d, SafeManifests(names)) + w.written;
    for i := 0 to |names|
      invariant w.Valid() && FromDisk(t, w.files)
      invariant forall j | 0 <= j < i :: SafeArchivePath(names[j]).Some?
      invariant all == ManifestLayer(t, sourceDir, d, SafeManifests(names[i..])) + w.written
    {
      var manifest := SafeArchivePath(names[i]);
      if manifest.None? {
        return false;
      }
      ghost var rest := SafeManifests(names[i + 1..]);
      assert SafeManifests(names[i..]) == [manifest.value] + rest by {
        assert names[i..][1..] == names[i + 1..];
      }
      assert ([manifest.value] + rest)[1..] == rest;
      Stacked(ManifestLayer(t, sourceDir, d, rest), Manifest(t, sourceDir, d, manifest.value), w.written);
      var sourcePath := d + manifest.value;
      if !IsFile(t, sourcePath) {
        assert map[] + w.written == w.written;
        continue;
      }
      var archivePath := if d != sourceDir then sourcePath else manifest.value;
      w.Add(archivePath, sourcePath, t[sourcePath].content);
    }
    assert map[] + w.written == w.written;
    ok := true;
  }

  /** addDependencyManifests: the manifests of each directory come below those of directories nearer the function. */
  method AddDependencyManifests(w: ArchiveWriter, t: Tree, sourceDir: Path, names: seq<string>) returns (ok: bool)
    requires w.Valid() && FromDisk(t, w.files)
    modifies w
    ensures w.Valid() && FromDisk(t, w.files)
    ensures ok <==> forall name <- names :: SafeArchivePath(name).Some?
    ensures ok ==> w.written == ManifestLayers(t, sourceDir, sourceDir, SafeManifests(names)) + old(w.written)
  {
    ghost var safe := SafeManifests(names);
    ghost var all := ManifestLayers(t, sourceDir, sourceDir, safe) + w.written;
    if names == [] {
      NoManifests(t, sourceDir, sourceDir);
      assert map[] + w.written == w.written;
      return true;
    }
    var current := sourceDir;
    while true
      invariant w.Valid() && FromDisk(t, w.files)
      invariant all == ManifestLayers(t, sourceDir, current, safe) + w.written
      decreases |current|
    {
      ghost var before := w.written;
      ok := AddManifestsOf(w, t, sourceDir, current, names);
      if !ok || current == [] {
        break;
      }
      Stacked(ManifestLayers(t, sourceDir, Parent(current), safe), ManifestLayer(t, sourceDir, current, safe), before);
      current := Parent(current);
    }
  }

  lemma {:induction false} NoManifests(t: Tree, sourceDir: Path, d: Path)
    ensures ManifestLayers(t, sourceDir, d, []) == map[]
    decreases |d|
  {
    if d != [] {
      NoManifests(t, sourceDir, Parent(d));
    }
  }

  /** The function's own file or directory. */
  method AddFunction(w: ArchiveWriter, t: Tree, m: Matcher, info: SourceInfo) returns (ok: bool)
    requires Worktree.Valid(t) && info.path != []
    requires w.Valid() && FromDisk(t, w.files) && w.written == map[]
    modifies w
    ensures w.Valid() && FromDisk(t, w.files)
    ensures ok <==> if info.isDir then FitsArchive(t, m, info.Dir(), info.Dir())
                    else IsFile(t, info.path) && SafeArchivePath(info.entrypoint).Some?
    ensures ok ==> w.written == FunctionLayer(t, m, info)
  {
    if info.isDir {
      var functionDir, files := info.Dir(), map[];
      ok, files := ReadDirectory(t, m, functionDir, functionDir);
      if ok {
        AddFiles(w, t, functionDir, [], files, KeptUnder(Walk(t, m, functionDir, functionDir), functionDir));
      }
    } else {
      var entrypoint := SafeArchivePath(info.entrypoint);
      ok := IsFile(t, info.path) && entrypoint.Some?;
      if ok {
        w.Add(entrypoint.value, info.path, t[info.path].content);
      }
    }
  }

  method AddLibraries(w: ArchiveWriter, t: Tree, m: Matcher, sharedLibs: seq<Library>) returns (ok: bool)
    requires Worktree.Valid(t) && w.Valid() && FromDisk(t, w.files)
    modifies w
    ensures w.Valid() && FromDisk(t, w.files)
    ensures ok <==> forall lib <- sharedLibs :: lib.isDir ==> FitsArchive(t, m, lib.path, [])
    ensures ok ==> w.written == LibraryLayer(t, m, sharedLibs) + old(w.written)
  {
    ghost var all := LibraryLayer(t, m, sharedLibs) + w.written;
    for i := 0 to |sharedLibs|
      invariant w.Valid() && FromDisk(t, w.files)
      invariant forall j | 0 <= j < i :: sharedLibs[j].isDir ==> FitsArchive(t, m, sharedLibs[j].path, [])
      invariant all == LibraryLayer(t, m, sharedLibs[i..]) + w.written
    {
      var lib := sharedLibs[i];
      assert sharedLibs[i..][1..] == sharedLibs[i + 1..];
      Stacked(LibraryLayer(t, m, sharedLibs[i + 1..]), LibraryFiles(t, m, lib), w.written);
      ok := AddLibrary(w, t, m, lib);
      if !ok {
        return;
      }
    }
    assert map[] + w.written == w.written;
    ok := true;
  }

  /** One turn of the loop over the libraries. */
  method AddLibrary(w: ArchiveWriter, t: Tree, m: Matcher, lib: Library) returns (ok: bool)
    requires Worktree.Valid(t) && w.Valid() && FromDisk(t, w.files)
    modifies w
    ensures w.Valid() && FromDisk(t, w.files)
    ensures ok <==> (lib.isDir ==> FitsArchive(t, m, lib.path, []))
    ensures ok ==> w.written == LibraryFiles(t, m, lib) + old(w.written)
  {
    assert map[] + w.written == w.written;
    if lib.isDir {
      var files;
      ok, files := ReadDirectory(t, m, lib.path, []);
      if ok {
        AddFiles(w, t, lib.path, lib.name, files, KeptUnder(Walk(t, m, lib.path, []), lib.path));
      }
      return;
    }
    ok := true;
    if m(lib.name, lib.path, false) {
      return;
    }
    if !IsFile(t, lib.path) {
      return;
    }
    w.Add(lib.name, lib.path, t[lib.path].content);
  }

  datatype PackageResult = Failed | Packed(files: seq<PackedFile>, sources: map<Path, Path>, libs: seq<Library>)

  /** What PackageSource answers with the libraries libs: all files Selection names, as on disk, or a failure. */
  ghost predicate Packages(t: Tree, m: Matcher, info: SourceInfo, libs: seq<Library>, r: PackageResult)
    requires info.path != []
  {
    if Packageable(t, m, info, libs) then
      && r.Packed? && r.libs == libs && r.sources == Selection(t, m, info, libs)
      && FromDisk(t, r.files) && r.sources.Values == set f | f in r.files :: f.path
    else r.Failed?
  }

  /**
   PackageSource, as far as the files of the archive go: it writes, at each archive path, the file
   Selection names there, with the content it has on disk.
   */
  method PackageSource(t: Tree, m: Matcher, info: SourceInfo) returns (r: PackageResult)
    requires Worktree.Valid(t) && FunctionsIsNoFile(t) && info.path != []
    ensures exists libs :: Lists(libs, LibrariesByName(t)) && Packages(t, m, info, libs, r)
  {
    var w := new ArchiveWriter();
    var sharedLibs := FindSharedLibraries(t);
    var ok := AddAll(w, t, m, info, sharedLibs);
    if !ok {
      r := Failed;
    } else {
      var sources := w.Sources();
      r := Packed(w.files, sources, sharedLibs);
    }
    assert Packages(t, m, info, sharedLibs, r);
  }

  method AddAll(w: ArchiveWriter, t: Tree, m: Matcher, info: SourceInfo, libs: seq<Library>) returns (ok: bool)
    requires Worktree.Valid(t) && info.path != []
    requires w.Valid() && FromDisk(t, w.files) && w.written == map[]
    modifies w
    ensures w.Valid() && FromDisk(t, w.files)
    ensures ok <==> Packageable(t, m, info, libs)
    ensures ok ==> w.written == Selection(t, m, info, libs)
  {
    ok := AddFunction(w, t, m, info);
    if ok {
      ghost var base := w.written;
      ok := AddDependencyManifests(w, t, info.Dir(), info.manifests);
      if ok {
        ghost var manifests := ManifestLayers(t, info.Dir(), info.Dir(), SafeManifests(info.manifests));
        ok := AddLibraries(w, t, m, libs);
        Stacked(LibraryLayer(t, m, libs), manifests, base);
      }
    }
  }
}
