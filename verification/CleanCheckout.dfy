/**
 What a checkout of a clean function's commit shares with the worktree: its ignore rules, which are those of the root
 .gitignore that every upload names among its paths, and the function, which the files of volcano/functions decide.
 */
module CleanCheckout {
  import opened Wrappers
  import opened Strings
  import opened Worktree
  import BlobFile
  import opened DirectoryReader
  import opened Scanner
  import opened Ignore
  import opened Inputs
  import opened Packager
  import opened Prediction
  import opened PredictionExact
  import opened Sources
  import opened DeployCommit
  import opened FunctionClean
  import opened Soundness

  // ---------- The ignore rules ----------

  /** git keeps the file itself, not a Git LFS pointer to it. */
  predicate NotInLfs(s: Repository, path: Path) {
    s.git.attributes.Some? ==> Attribute(s.git.attributes.value(path), "filter") != "lfs"
  }

  /**
   What a checkout has for the .gitignore: nothing unless it is committed, and else some content that git stores as the
   committed one. Where a symlink is committed it can be anything.
   */
  ghost predicate CheckedOutIgnore(s: Repository, disk: Disk, dir: Path, file: Option<seq<BlobFile.Byte>>) {
    var path := dir + Gitignore();
    if path !in s.tree then file.None?
    else s.tree[path].mode == MODE_SYMLINK
         || (file.Some? && exists committed ::
               s.tree[path].blob == BlobFile.BlobID(disk.sha1, committed) != ""
               && StoredAs(s, disk.sha256, path, file.value, committed))
  }

  /** A .gitignore that the commit lacks decides what the worktree's package leaves out. */
  ghost predicate StrayIgnore(s: Repository, y: Project, dir: Path) {
    dir + Gitignore() !in s.tree && IsFile(y.tree, Gitignore())
  }

  lemma {:induction false} ListedPath(s: Repository, disk: Disk, dir: Path, paths: seq<Path>, p: Path)
    requires p in paths && dir + p !in UncommittedPaths(s, disk, dir, paths)
    ensures dir + p in s.tree || disk.lstat(dir + p).None?
  {
    var n := |paths| - 1;
    assert paths == paths[..n] + [paths[n]];
    if p != paths[n] {
      ListedPath(s, disk, dir, paths[..n], p);
    }
  }

  /** The root .gitignore of a clean function is committed if and only if it is on disk, or git ignores it itself. */
  lemma IgnoreFileCommitted(s: Repository, disk: Disk, x: UploadInputs, y: Project, dir: Path)
    requires y.Valid() && Describes(x, y, dir, disk) && IsClean(s, disk, x) && Gitignore() in x.paths
    ensures dir + Gitignore() in s.tree ==> Gitignore() in y.tree
    ensures StrayIgnore(s, y, dir) ==>
              dir + Gitignore() in Uncommitted(s, disk, dir, x) && GitIgnores(s, dir + Gitignore())
    ensures dir + Gitignore() in s.tree && s.tree[dir + Gitignore()].mode != MODE_SYMLINK ==>
              HoldsTheCommit(s, disk, y, dir, Gitignore())
  {
    hide HasContent, BlobFile.Recorded, InputPath, Worktree.Valid, Lists, LibrariesByName, WholeRepositoryIsClean,
         IsStaged, IsUntracked, Gitignore, Selection;
    var g := Gitignore();
    assert g in x.paths + x.roots && x.placed(g);
    if dir + g in s.tree {
      assert dir + g in InRepository(dir, x.paths);
      assert Feeds(s, dir, x, dir + g) && InputMatches(s, disk, dir, x, dir + g);
      IgnoreFileMatches(s, disk, x, y, dir);
    } else if IsFile(y.tree, g) {
      if dir + g !in UncommittedPaths(s, disk, dir, x.paths) {
        ListedPath(s, disk, dir, x.paths, g);
      }
    }
  }

  lemma IgnoreFileMatches(s: Repository, disk: Disk, x: UploadInputs, y: Project, dir: Path)
    requires y.Valid() && Describes(x, y, dir, disk) && Gitignore() in x.paths && x.placed(Gitignore())
    requires dir + Gitignore() in s.tree && Feeds(s, dir, x, dir + Gitignore())
    requires InputMatches(s, disk, dir, x, dir + Gitignore())
    ensures Gitignore() in y.tree
    ensures s.tree[dir + Gitignore()].mode != MODE_SYMLINK ==> HoldsTheCommit(s, disk, y, dir, Gitignore())
  {
    hide HasContent, BlobFile.Recorded, InputPath, Worktree.Valid, Lists, LibrariesByName, Gitignore, Selection;
    var g := Gitignore();
    ReadAt(s, dir, x.files, g);
    if dir + g in Read(s, dir, x.files) {
      assert InputFile(g, Read(s, dir, x.files)[dir + g]) in x.files;
    }
  }

  /** What git stores as the same bytes, without Git LFS, has the same meaning. */
  lemma SameMeaning(s: Repository, sha256: seq<BlobFile.Byte> -> string, path: Path, meaning: Meaning,
                    content: seq<BlobFile.Byte>, committed: seq<BlobFile.Byte>)
    requires NotInLfs(s, path) && EndingsAside(meaning) && StoredAs(s, sha256, path, content, committed)
    ensures meaning(content) == meaning(committed)
  {
    hide BlobFile.ToLF, BlobFile.LfsPointer, Converts;
  }

  lemma ComparedIsStored(s: Repository, disk: Disk, path: Path, entry: Entry, content: seq<BlobFile.Byte>,
                         committed: seq<BlobFile.Byte>)
    requires BlobFile.Injective(disk.sha1) && entry.blob == BlobFile.BlobID(disk.sha1, committed) != ""
    requires HasContent(s, path, entry, BlobFile.Recorded(disk.sha1, disk.sha256, content))
    ensures StoredAs(s, disk.sha256, path, content, committed)
  {
    hide HasContent, BlobFile.Recorded, BlobFile.BlobID, Converts;
    ContentIsStored(s, disk.sha1, disk.sha256, path, entry, content, committed);
  }

  /**
   A checkout has the worktree's ignore rules, whatever a .gitignore may mean, if and only if the worktree has no
   .gitignore that the commit lacks.
   */
  lemma IgnoreRulesExactlyWhen(s: Repository, disk: Disk, x: UploadInputs, y: Project, dir: Path,
                               file: Option<seq<BlobFile.Byte>>)
    requires y.Valid() && Describes(x, y, dir, disk) && IsClean(s, disk, x) && Gitignore() in x.paths
    requires BlobFile.Injective(disk.sha1) && CheckedOutIgnore(s, disk, dir, file)
    requires NotInLfs(s, dir + Gitignore())
    requires dir + Gitignore() in s.tree ==> s.tree[dir + Gitignore()].mode != MODE_SYMLINK
    ensures (forall patterns, meaning | EndingsAside(meaning) ::
               IgnoreRules(patterns, meaning, file) == IgnoreRules(patterns, meaning, IgnoreFile(y.tree)))
            <==> !StrayIgnore(s, y, dir)
  {
    hide Describes, IsClean, EndingsAside, Gitignore;
    IgnoreFileCommitted(s, disk, x, y, dir);
    if StrayIgnore(s, y, dir) {
      EverythingIgnored(IgnoreFile(y.tree));
    } else {
      forall patterns, meaning | EndingsAside(meaning)
        ensures IgnoreRules(patterns, meaning, file) == IgnoreRules(patterns, meaning, IgnoreFile(y.tree))
      {
        if dir + Gitignore() in s.tree {
          SameIgnoreFile(s, disk, y, dir, file, meaning);
        }
      }
    }
  }

  lemma SameIgnoreFile(s: Repository, disk: Disk, y: Project, dir: Path, file: Option<seq<BlobFile.Byte>>,
                       meaning: Meaning)
    requires dir + Gitignore() in s.tree && HoldsTheCommit(s, disk, y, dir, Gitignore())
    requires BlobFile.Injective(disk.sha1) && CheckedOutIgnore(s, disk, dir, file)
    requires NotInLfs(s, dir + Gitignore()) && EndingsAside(meaning)
    ensures file.Some? && meaning(file.value) == meaning(y.tree[Gitignore()].content)
  {
    hide EndingsAside, Gitignore, NotInLfs, StoredAs, HasContent, BlobFile.BlobID, BlobFile.Recorded;
    var path := dir + Gitignore();
    var committed :| s.tree[path].blob == BlobFile.BlobID(disk.sha1, committed) != ""
                     && StoredAs(s, disk.sha256, path, file.value, committed);
    var content := y.tree[Gitignore()].content;
    ComparedIsStored(s, disk, path, s.tree[path], content, committed);
    SameMeaning(s, disk.sha256, path, meaning, content, committed);
    SameMeaning(s, disk.sha256, path, meaning, file.value, committed);
  }

  /** A .gitignore can mean that everything is ignored, which no rules without one need say. */
  lemma EverythingIgnored(file: Option<seq<BlobFile.Byte>>)
    requires file.Some?
    ensures exists patterns, meaning | EndingsAside(meaning) ::
              IgnoreRules(patterns, meaning, None) != IgnoreRules(patterns, meaning, file)
  {
    var patterns: Patterns := _ => false;
    var all: Compiled := (_, _) => true;
    var meaning: Meaning := _ => all;
    assert EndingsAside(meaning);
    assert !IgnoreRules(patterns, meaning, None)([], [], false) && IgnoreRules(patterns, meaning, file)([], [], false);
  }

  // ---------- The function ----------

  /** The commit holds a regular file at p. */
  predicate CommitsFile(s: Repository, dir: Path, p: Path) {
    dir + p in s.tree && s.tree[dir + p].mode != MODE_SYMLINK
  }

  /** The commit holds the function's file, and in its directory no file of an earlier name that is an entrypoint. */
  ghost predicate SameEntry(s: Repository, dir: Path, cat: Catalog, info: SourceInfo)
    requires info.path != []
  {
    if info.isDir then
      && CommitsFile(s, dir, info.path)
      && forall name | name in cat.byEntrypoint && Less(name, info.path[|info.path| - 1]) ::
           !CommitsFile(s, dir, info.Dir() + [name])
    else dir + info.path in s.tree
  }

  /** A checkout has the worktree's function if and only if the commit does. */
  lemma FunctionExactlyWhen(s: Repository, dir: Path, t: Tree, cat: Catalog, name: string, info: SourceInfo)
    requires CommitValid(s) && Finds(t, cat, name, info)
    ensures info.path != [] && (Finds(Checkout(s, dir), cat, name, info) <==> SameEntry(s, dir, cat, info))
  {
    hide CommitValid, Worktree.Valid, Checkout;
    OneFunction(t, cat, name, info, info);
    CheckoutIsCommit(s, dir);
    if info.isDir {
      DirectoryInCheckout(s, dir, t, cat, name, info);
    } else {
      FileInCheckout(s, dir, info.path);
    }
  }

  lemma DirectoryInCheckout(s: Repository, dir: Path, t: Tree, cat: Catalog, name: string, info: SourceInfo)
    requires CommitValid(s) && Finds(t, cat, name, info) && info.isDir
    ensures info.path != [] && (Finds(Checkout(s, dir), cat, name, info) <==> SameEntry(s, dir, cat, info))
  {
    hide CommitValid, Worktree.Valid, Checkout;
    CheckoutIsCommit(s, dir);
    var c, d := Checkout(s, dir), FUNCTIONS + [name];
    var entry :| FirstEntry(t, cat, d, entry) && info == DirectoryFunction(cat, d, entry);
    assert info.Dir() == d && info.path[|info.path| - 1] == entry;
    if SameEntry(s, dir, cat, info) {
      assert IsFile(c, info.path);
      AncestorIsDir(c, info.path, 3);
      assert info.path[..3] == d;
      forall other | IsEntry(c, cat, d, other) && other != entry
        ensures Less(entry, other)
      {
        LessTotal(entry, other);
        assert CommitsFile(s, dir, d + [other]);
      }
      assert FirstEntry(c, cat, d, entry);
    }
    if Finds(c, cat, name, info) {
      var other :| FirstEntry(c, cat, d, other) && info == DirectoryFunction(cat, d, other);
      assert (d + [other])[3] == other && other == entry;
      forall early | early in cat.byEntrypoint && Less(early, entry)
        ensures !CommitsFile(s, dir, d + [early])
      {
        LessTotal(early, entry);
        assert CommitsFile(s, dir, d + [early]) ==> IsEntry(c, cat, d, early);
      }
    }
  }

  /** An entry of a checkout that is no directory is committed as a file. */
  lemma FileInCheckout(s: Repository, dir: Path, p: Path)
    requires CommitValid(s) && p != []
    ensures p in Checkout(s, dir) && !Checkout(s, dir)[p].Dir? <==> dir + p in s.tree
  {
    CheckoutIsCommit(s, dir);
    var leaves := CommitLeaves(s, dir);
    assert (dir + p)[|dir|..] == p;
    LeavesAre(s, dir, p);
  }

  lemma LeavesAre(s: Repository, dir: Path, p: Path)
    requires p != []
    ensures p in CommitLeaves(s, dir) <==> dir + p in s.tree.Keys + s.gitlinks.Keys
  {
    assert (dir + p)[|dir|..] == p;
    if p in CommitLeaves(s, dir) {
      var q :| q in s.tree.Keys + s.gitlinks.Keys && dir < q && q[|dir|..] == p;
      assert q == dir + p;
    }
  }

  /** An earlier entrypoint that the commit holds for a clean function is one that the ignore rules leave out. */
  lemma EarlierEntryIsIgnored(s: Repository, disk: Disk, x: UploadInputs, y: Project, dir: Path, cat: Catalog,
                              name: string, early: string)
    requires y.Valid() && Describes(x, y, dir, disk) && IsClean(s, disk, x) && Finds(y.tree, cat, name, y.info)
    requires y.info.isDir && early in cat.byEntrypoint && Less(early, y.info.path[|y.info.path| - 1])
    requires CommitsFile(s, dir, y.info.Dir() + [early])
    ensures !Keeps(y.matcher, y.info.Dir(), y.info.Dir(), y.info.Dir() + [early])
  {
    hide Worktree.Valid, Lists, LibrariesByName, Describes, IsClean;
    OneFunction(y.tree, cat, name, y.info, y.info);
    var d := y.info.Dir();
    var p := d + [early];
    var entry :| FirstEntry(y.tree, cat, FUNCTIONS + [name], entry)
                 && y.info == DirectoryFunction(cat, FUNCTIONS + [name], entry);
    assert d == FUNCTIONS + [name] && y.info.path[3] == entry;
    if Keeps(y.matcher, d, d, p) {
      KeptFeeds(y, p);
      FedIsOnDisk(s, disk, x, y, dir, p);
      LessTotal(early, entry);
    }
  }

  lemma KeptFeeds(y: Project, p: Path)
    requires y.Valid() && y.info.isDir && y.info.Dir() < p && Keeps(y.matcher, y.info.Dir(), y.info.Dir(), p)
    ensures InputPath(y.Rules(), y.Selection(), p).feeds
  {
    hide Worktree.Valid, Lists, LibrariesByName, SharedLibrary, ManifestRoles, LibraryRole, Selection, Keeps;
    var r := y.Rules();
    assert p[|r.sourceDir|..] != [];
    assert Role(p[|r.sourceDir|..], 0) in FunctionRole(r, p);
    BestIsLeast(Roles(r, p));
    assert Role(p[|r.sourceDir|..], 0) in Roles(r, p);
  }

  // ---------- The commit reported is the one deployed ----------

  /** The worktree's project, and a checkout's: each with the rules and the function its files give it. */
  ghost predicate Deployed(s: Repository, disk: Disk, y: Project, z: Project, dir: Path, patterns: Patterns,
                           meaning: Meaning, cat: Catalog, name: string, file: Option<seq<BlobFile.Byte>>)
  {
    && y.matcher == IgnoreRules(patterns, meaning, IgnoreFile(y.tree)) && Finds(y.tree, cat, name, y.info)
    && z.matcher == IgnoreRules(patterns, meaning, file) && Finds(z.tree, cat, name, z.info)
    && CheckedOutIgnore(s, disk, dir, file)
  }

  /**
   A checkout of a clean function's commit has the same function if and only if the commit holds its file and no
   earlier entrypoint. With the same function, and without a .gitignore that the commit lacks, packaging it writes every
   committed upload where it was, and nothing where nothing is uploaded, if and only if it replaces no library of a
   committed upload, and restores none from which the archive would gain a file; here the manifest names are apart.
   */
  lemma CheckoutDeploysTheSame(s: Repository, disk: Disk, x: UploadInputs, y: Project, z: Project, dir: Path,
                               patterns: Patterns, meaning: Meaning, cat: Catalog, name: string,
                               file: Option<seq<BlobFile.Byte>>)
    requires Clean(s, disk, x, y, z, dir) && Deployed(s, disk, y, z, dir, patterns, meaning, cat, name, file)
    requires NamesApart(y.info) && IsFile(y.tree, y.info.path)
    requires Gitignore() in x.paths && BlobFile.Injective(disk.sha1) && EndingsAside(meaning)
    requires NotInLfs(s, dir + Gitignore())
    requires dir + Gitignore() in s.tree ==> s.tree[dir + Gitignore()].mode != MODE_SYMLINK
    ensures z.info == y.info <==> SameEntry(s, dir, cat, y.info)
    ensures SameEntry(s, dir, cat, y.info) && !StrayIgnore(s, y, dir) ==>
              (CommittedAgree(s, y, z, dir) <==> NoneReplaced(s, y, z, dir) && NoneRestored(y, z))
  {
    hide Describes, IsClean, EndingsAside, Gitignore, IgnoreRules, CommitValid, Worktree.Valid, Lists, LibrariesByName,
         Finds, SameEntry, CommittedAgree, NoneReplaced, NoneRestored, NotInLfs, CheckedOutIgnore, NamesApart;
    FunctionExactlyWhen(s, dir, y.tree, cat, name, y.info);
    if Finds(z.tree, cat, name, y.info) {
      OneFunction(z.tree, cat, name, y.info, z.info);
    }
    IgnoreRulesExactlyWhen(s, disk, x, y, dir, file);
    if z.info == y.info && !StrayIgnore(s, y, dir) {
      CleanBySameRules(s, disk, x, y, z, dir);
    }
  }
}
