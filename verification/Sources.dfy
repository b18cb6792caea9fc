/** Finding the functions of a project and their runtimes (ScanSources in internal/function/scanner.go). */
module Sources {
  import opened Wrappers
  import opened Strings
  import opened Worktree
  import opened Scanner
  import opened Packager
  import opened Prediction

  /** Of a runtime, what packaging needs: the entrypoint and the manifests it looks for. */
  datatype Runtime = Runtime(entrypoint: string, manifests: seq<string>)

  /** RuntimeCatalog: the default runtimes by file extension, and by entrypoint. */
  datatype Catalog = Catalog(byExtension: map<string, Runtime>, byEntrypoint: map<string, Runtime>) {
    ghost predicate Valid() {
      forall name <- byEntrypoint :: byEntrypoint[name].entrypoint == name
    }
  }

  /** filepath.Ext: what follows the last dot, with it. */
  function Ext(name: string): string {
    if '.' !in name then "" else if name[|name| - 1] == '.' then "." else Ext(name[..|name| - 1]) + [name[|name| - 1]]
  }

  /** It is "" for a name without a dot, and else the end of it that starts at its last dot. */
  lemma {:induction false} ExtMeans(name: string)
    ensures var ext := Ext(name); |ext| <= |name| && name[|name| - |ext|..] == ext
    ensures Ext(name) == "" <==> '.' !in name
    ensures '.' in name ==> Ext(name)[0] == '.' && '.' !in Ext(name)[1..]
  {
    if '.' in name && name[|name| - 1] != '.' {
      var n := |name| - 1;
      assert name == name[..n] + [name[n]];
      ExtMeans(name[..n]);
      var ext := Ext(name[..n]);
      assert (ext + [name[n]])[1..] == ext[1..] + [name[n]];
      assert name[n - |ext|..] == name[..n][n - |ext|..] + [name[n]];
    }
  }

  // ---------- The entry file of a directory ----------

  ghost predicate IsEntry(t: Tree, cat: Catalog, d: Path, name: string) {
    name in cat.byEntrypoint && IsFile(t, d + [name])
  }

  /** The regular file in d, of those called as an entrypoint is, whose name comes first. */
  ghost predicate FirstEntry(t: Tree, cat: Catalog, d: Path, name: string) {
    IsEntry(t, cat, d, name) && forall other | IsEntry(t, cat, d, other) && other != name :: Less(name, other)
  }

  /** names is what os.ReadDir lists of d: its entries, by name. */
  ghost predicate Listing(t: Tree, d: Path, names: seq<string>) {
    && (forall name :: name in names <==> d + [name] in t)
    && forall i, j | 0 <= i < j < |names| :: Less(names[i], names[j])
  }

  method DetectDirectoryRuntime(t: Tree, cat: Catalog, d: Path, names: seq<string>) returns (entry: Option<string>)
    requires Listing(t, d, names)
    ensures entry.Some? ==> FirstEntry(t, cat, d, entry.value)
    ensures entry.None? ==> forall name :: !IsEntry(t, cat, d, name)
  {
    for i := 0 to |names|
      invariant forall j | 0 <= j < i :: !IsEntry(t, cat, d, names[j])
    {
      var name := names[i];
      if t[d + [name]].Dir? {
        continue;
      }
      if name in cat.byEntrypoint && t[d + [name]].File? {
        forall other | IsEntry(t, cat, d, other) && other != name
          ensures Less(name, other)
        {
          var j :| 0 <= j < |names| && names[j] == other;
        }
        return Some(name);
      }
    }
    entry := None;
  }

  // ---------- A function ----------

  /** The entry called name of volcano/functions is the function info. */
  ghost predicate Finds(t: Tree, cat: Catalog, name: string, info: SourceInfo) {
    var p := FUNCTIONS + [name];
    && !Underscored(name) && p in t
    && if t[p].Dir? then
         exists entry :: FirstEntry(t, cat, p, entry) && info == DirectoryFunction(cat, p, entry)
       else Ext(name) in cat.byExtension && info == FileFunction(cat, p, Ext(name))
  }

  function DirectoryFunction(cat: Catalog, d: Path, entry: string): SourceInfo
    requires entry in cat.byEntrypoint
  {
    SourceInfo(d + [entry], true, cat.byEntrypoint[entry].entrypoint, cat.byEntrypoint[entry].manifests)
  }

  function FileFunction(cat: Catalog, p: Path, ext: string): SourceInfo
    requires ext in cat.byExtension
  {
    SourceInfo(p, false, cat.byExtension[ext].entrypoint, cat.byExtension[ext].manifests)
  }

  /** One turn of ScanSources' loop. */
  method ScanSource(t: Tree, cat: Catalog, name: string, names: seq<string>) returns (info: Option<SourceInfo>)
    requires FUNCTIONS + [name] in t && Listing(t, FUNCTIONS + [name], names)
    ensures info.Some? ==> Finds(t, cat, name, info.value)
    ensures info.None? ==> forall other :: !Finds(t, cat, name, other)
  {
    if Underscored(name) {
      return None;
    }
    var p := FUNCTIONS + [name];
    if t[p].Dir? {
      var entry := DetectDirectoryRuntime(t, cat, p, names);
      return if entry.Some? then Some(DirectoryFunction(cat, p, entry.value)) else None;
    }
    return if Ext(name) in cat.byExtension then Some(FileFunction(cat, p, Ext(name))) else None;
  }

  /**
   A directory is a function, whose file is its first entrypoint by name, with the manifests of that one's runtime. A
   file is one by its extension, as the entrypoint of that runtime. Neither is one when its name is underscored.
   */
  lemma FindsMeans(t: Tree, cat: Catalog, name: string, info: SourceInfo)
    requires cat.Valid()
    ensures Finds(t, cat, name, info)
       <==> && !(exists rest :: name == "_" + rest) && FUNCTIONS + [name] in t
            && if t[FUNCTIONS + [name]].Dir? then
                 && info.isDir && |info.path| == 4 && info.path[..3] == FUNCTIONS + [name]
                 && var entry := info.path[3];
                    && entry in cat.byEntrypoint && IsFile(t, info.path)
                    && info.entrypoint == entry && info.manifests == cat.byEntrypoint[entry].manifests
                    && forall other | other in cat.byEntrypoint && other != entry
                                      && IsFile(t, FUNCTIONS + [name] + [other]) :: Less(entry, other)
               else
                 && !info.isDir && info.path == FUNCTIONS + [name]
                 && exists ext | ext in cat.byExtension ::
                      && ext == Ext(name)
                      && info.entrypoint == cat.byExtension[ext].entrypoint
                      && info.manifests == cat.byExtension[ext].manifests
  {
    hide Less, Ext;
    if Underscored(name) {
      assert name == "_" + name[1..];
    } else if FUNCTIONS + [name] in t && t[FUNCTIONS + [name]].Dir? {
      DirectoryMeans(t, cat, FUNCTIONS + [name], info);
    }
  }

  lemma DirectoryMeans(t: Tree, cat: Catalog, d: Path, info: SourceInfo)
    requires cat.Valid() && |d| == 3
    ensures (exists entry :: FirstEntry(t, cat, d, entry) && info == DirectoryFunction(cat, d, entry))
       <==> && info.isDir && |info.path| == 4 && info.path[..3] == d
            && var entry := info.path[3];
               && entry in cat.byEntrypoint && IsFile(t, info.path)
               && info.entrypoint == entry && info.manifests == cat.byEntrypoint[entry].manifests
               && forall other | other in cat.byEntrypoint && IsFile(t, d + [other]) && other != entry ::
                    Less(entry, other)
  {
    hide Less;
    if entry :| FirstEntry(t, cat, d, entry) && info == DirectoryFunction(cat, d, entry) {
      assert (d + [entry])[..3] == d && (d + [entry])[3] == entry;
    }
    if info.isDir && |info.path| == 4 && info.path[..3] == d {
      var entry := info.path[3];
      assert info.path == d + [entry];
      if IsEntry(t, cat, d, entry) && info == DirectoryFunction(cat, d, entry) {
        assert (forall other | IsEntry(t, cat, d, other) && other != entry :: Less(entry, other))
          ==> FirstEntry(t, cat, d, entry);
      }
    }
  }

  lemma OneEntry(t: Tree, cat: Catalog, d: Path, a: string, b: string)
    requires FirstEntry(t, cat, d, a) && FirstEntry(t, cat, d, b)
    ensures a == b
  {
    LessTotal(a, b);
  }

  /** A project has one function of a name, and it is where ScanSources finds functions. */
  lemma OneFunction(t: Tree, cat: Catalog, name: string, a: SourceInfo, b: SourceInfo)
    requires Finds(t, cat, name, a) && Finds(t, cat, name, b)
    ensures a == b && Scanned(a) && (a.isDir ==> IsFile(t, a.path)) && a.path[2] == name
  {
    var p := FUNCTIONS + [name];
    if t[p].Dir? {
      var m :| FirstEntry(t, cat, p, m) && a == DirectoryFunction(cat, p, m);
      var n :| FirstEntry(t, cat, p, n) && b == DirectoryFunction(cat, p, n);
      OneEntry(t, cat, p, m, n);
    }
  }
}
