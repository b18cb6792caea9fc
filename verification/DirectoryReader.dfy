/** Reading the files of one directory for an archive (internal/function/reader.go, keeps in inputs.go). */
module DirectoryReader {
  import opened BlobFile
  import opened Collections
  import opened Worktree

  const MAX_PACKAGE_FILES := 10000

  /**
   ShouldIgnoreWith: whether a path, and whether it is a directory, is left out; the first path is the
   one patterns match, the second the one .gitignore matches. Any such decision is allowed.
   */
  type Matcher = (Path, Path, bool) -> bool

  predicate Ignores(m: Matcher, matchRoot: Path, q: Path, isDir: bool)
    requires matchRoot <= q
  {
    m(q[|matchRoot|..], q, isDir)
  }

  /** One walk: the tree, the rules, the directory walked, and the one patterns match paths under. */
  datatype Walk = Walk(tree: Tree, matcher: Matcher, root: Path, matchRoot: Path) {
    ghost predicate Valid() {
      Worktree.Valid(tree) && matchRoot <= root
    }
  }

  /** keeps: m leaves out neither the file at p nor a directory between walkRoot and p. */
  predicate Keeps(m: Matcher, walkRoot: Path, matchRoot: Path, p: Path)
    requires matchRoot <= walkRoot < p
  {
    && (forall i | |walkRoot| < i < |p| :: !Ignores(m, matchRoot, p[..i], true))
    && !Ignores(m, matchRoot, p, false)
  }

  /** The files at or under path that the path test keeps. */
  function KeptUnder(w: Walk, path: Path): set<Path>
    requires w.matchRoot <= w.root
  {
    set q | q in w.tree && path <= q && w.tree[q].File? && w.root < q && Keeps(w.matcher, w.root, w.matchRoot, q)
  }

  /** The files of kept by their paths under root, with their content. */
  function Contents(t: Tree, root: Path, kept: set<Path>): map<Path, seq<Byte>>
    requires forall q <- kept :: root <= q && IsFile(t, q)
  {
    map r | r in Relative(root, kept) :: Joined(root, kept, r); assert IsFile(t, root + r); t[root + r].content
  }

  function Relative(root: Path, kept: set<Path>): set<Path>
    requires forall q <- kept :: root <= q
  {
    set q | q in kept :: q[|root|..]
  }

  lemma Joined(root: Path, kept: set<Path>, r: Path)
    requires forall q <- kept :: root <= q
    ensures r in Relative(root, kept) <==> root + r in kept
  {
    assert (root + r)[|root|..] == r;
    if r in Relative(root, kept) {
      var q :| q in kept && q[|root|..] == r;
      assert q == root + r;
    }
  }

  lemma ContentsAdd(t: Tree, root: Path, kept: set<Path>, q: Path)
    requires root <= q && IsFile(t, q)
    requires forall q <- kept :: root <= q && IsFile(t, q)
    ensures Contents(t, root, kept + {q}) == Contents(t, root, kept)[q[|root|..] := t[q].content]
  {
    assert root + q[|root|..] == q;
    assert Relative(root, kept + {q}) == Relative(root, kept) + {q[|root|..]};
  }

  /** A directory that is left out hides everything under it. */
  lemma HiddenSubtree(w: Walk, path: Path)
    requires w.matchRoot <= w.root < path && path in w.tree && w.tree[path].Dir?
    requires Ignores(w.matcher, w.matchRoot, path, true)
    ensures KeptUnder(w, path) == {}
  {
    forall q | q in w.tree && path <= q && w.tree[q].File?
      ensures !Keeps(w.matcher, w.root, w.matchRoot, q)
    {
      assert q != path && q[..|path|] == path;
      assert Ignores(w.matcher, w.matchRoot, q[..|path|], true);
    }
  }

  lemma LoneEntry(w: Walk, path: Path)
    requires w.Valid() && w.root <= path && path in w.tree && !w.tree[path].Dir?
    ensures KeptUnder(w, path)
         == if w.root < path && w.tree[path].File? && Keeps(w.matcher, w.root, w.matchRoot, path) then {path} else {}
  {
    forall q | q in KeptUnder(w, path)
      ensures q == path
    {
      NothingBelow(w.tree, path, q);
    }
  }

  /** What is kept under the children of path that are in todo. */
  function KeptIn(w: Walk, path: Path, todo: set<Path>): set<Path>
    requires w.matchRoot <= w.root
  {
    set q | q in KeptUnder(w, path) && |path| < |q| && q[..|path| + 1] in todo
  }

  lemma KeptBelow(w: Walk, path: Path)
    requires w.Valid() && path in w.tree && w.tree[path].Dir?
    ensures KeptIn(w, path, Children(w.tree, path)) == KeptUnder(w, path)
  {
    forall q | q in KeptUnder(w, path)
      ensures |path| < |q| && q[..|path| + 1] in Children(w.tree, path)
    {
      assert q != path;
      ChildToward(w.tree, path, q);
    }
  }

  lemma KeptSplit(w: Walk, path: Path, todo: set<Path>, child: Path)
    requires w.matchRoot <= w.root && child in todo && child != [] && Parent(child) == path
    ensures KeptIn(w, path, todo) == KeptUnder(w, child) + KeptIn(w, path, todo - {child})
    ensures KeptUnder(w, child) !! KeptIn(w, path, todo - {child})
  {
    forall q | q in KeptUnder(w, child)
      ensures q in KeptUnder(w, path) && q[..|path| + 1] == child
    {
      assert path <= child <= q;
    }
  }

  lemma KeptInNothing(w: Walk, path: Path)
    requires w.matchRoot <= w.root
    ensures KeptIn(w, path, {}) == {}
  {
  }

  /** Whether the walk gets to path: it leaves out no directory above it. */
  ghost predicate Reached(w: Walk, path: Path)
    requires w.matchRoot <= w.root
  {
    && w.root <= path && path in w.tree
    && forall i | |w.root| < i < |path| :: !Ignores(w.matcher, w.matchRoot, path[..i], true)
  }

  lemma ReachChild(w: Walk, path: Path, child: Path)
    requires w.matchRoot <= w.root && Reached(w, path) && child in Children(w.tree, path)
    requires |w.root| < |path| ==> !Ignores(w.matcher, w.matchRoot, path, true)
    ensures Reached(w, child)
  {
    assert child[..|path|] == path;
    forall i | |w.root| < i < |child|
      ensures !Ignores(w.matcher, w.matchRoot, child[..i], true)
    {
      assert child[..i] == path[..i];
    }
  }

  /** What the walk has read so far: files and their count, which met names. */
  datatype Progress = Progress(files: map<Path, seq<Byte>>, fileCount: nat)

  ghost predicate Met(w: Walk, p: Progress, met: set<Path>) {
    && (forall q <- met :: w.root <= q && IsFile(w.tree, q))
    && p == Progress(Contents(w.tree, w.root, met), |met|)
    && |met| <= MAX_PACKAGE_FILES
  }

  /**
   Walks path and what is under it, having met met: filepath.WalkDir with the callback that fills files.
   Not ok means the archive would hold too many files.
   */
  method Visit(w: Walk, path: Path, p: Progress, ghost met: set<Path>) returns (ok: bool, p': Progress)
    requires w.Valid() && Reached(w, path) && Met(w, p, met) && met !! KeptUnder(w, path)
    ensures ok ==> Met(w, p', met + KeptUnder(w, path))
    ensures !ok ==> |met + KeptUnder(w, path)| > MAX_PACKAGE_FILES
    decreases Subtree(w.tree, path)
  {
    var entry := w.tree[path];
    ok, p' := true, p;
    if !entry.Dir? {
      LoneEntry(w, path);
    }
    if path != w.root {
      if entry.Link? {
        return;
      }
      if Ignores(w.matcher, w.matchRoot, path, entry.Dir?) {
        if entry.Dir? {
          HiddenSubtree(w, path);
        }
        return;
      }
      if !entry.Dir? {
        if entry.Special? {
          return;
        }
        var fileCount := p.fileCount + 1;
        ContentsAdd(w.tree, w.root, met, path);
        if fileCount > MAX_PACKAGE_FILES {
          return false, p;
        }
        return true, Progress(p.files[path[|w.root|..] := entry.content], fileCount);
      }
    }
    if !entry.Dir? {
      return;
    }
    KeptBelow(w, path);
    ok, p' := VisitChildren(w, path, p, met);
  }

  method VisitChildren(w: Walk, path: Path, p: Progress, ghost met: set<Path>) returns (ok: bool, p': Progress)
    requires w.Valid() && Reached(w, path) && w.tree[path].Dir?
    requires |w.root| < |path| ==> !Ignores(w.matcher, w.matchRoot, path, true)
    requires Met(w, p, met) && met !! KeptUnder(w, path)
    ensures ok ==> Met(w, p', met + KeptUnder(w, path))
    ensures !ok ==> |met + KeptUnder(w, path)| > MAX_PACKAGE_FILES
    decreases Subtree(w.tree, path), 0
  {
    hide Met, Contents, KeptUnder, Keeps, KeptIn, Ignores;
    var todo := Children(w.tree, path);
    ok, p' := true, p;
    ghost var now, all := met, met + KeptUnder(w, path);
    KeptBelow(w, path);
    while todo != {}
      invariant todo <= Children(w.tree, path)
      invariant Met(w, p', now)
      invariant now + KeptIn(w, path, todo) == all && now !! KeptIn(w, path, todo)
    {
      var child :| child in todo;
      SubtreeShrinks(w.tree, child);
      ReachChild(w, path, child);
      KeptSplit(w, path, todo, child);
      ok, p' := Visit(w, child, p', now);
      now := now + KeptUnder(w, child);
      if !ok {
        SubsetSize(now, all);
        return;
      }
      todo := todo - {child};
    }
    KeptInNothing(w, path);
    assert now == all;
  }

  /**
   Reads the directory at root: exactly the files the path test keeps, by their paths under it, and
   false exactly when root is missing or those are too many.
   */
  method ReadDirectory(tree: Tree, matcher: Matcher, root: Path, matchRoot: Path)
    returns (ok: bool, files: map<Path, seq<Byte>>)
    requires Worktree.Valid(tree) && matchRoot <= root
    ensures
      var kept := KeptUnder(Walk(tree, matcher, root, matchRoot), root);
      && (ok <==> root in tree && |kept| <= MAX_PACKAGE_FILES)
      && (ok ==> files == Contents(tree, root, kept))
  {
    if root !in tree {
      return false, map[];
    }
    var w := Walk(tree, matcher, root, matchRoot);
    var p;
    ok, p := Visit(w, root, Progress(map[], 0), {});
    files := p.files;
    assert {} + KeptUnder(w, root) == KeptUnder(w, root);
  }
}
