module Wrappers {
  datatype Option<+T> = None | Some(value: T)
}

/**
 A project directory on disk: what is at each path under it. A path is the list of its segments, so
 "a/b" is ["a", "b"] and the directory itself is []. A path behind a symlink is not in the map.
 */
module Worktree {
  import opened BlobFile

  type Path = seq<string>

  datatype Node = File(content: seq<Byte>, executable: bool) | Dir | Link(target: seq<Byte>) | Special

  type Tree = map<Path, Node>

  ghost predicate Valid(t: Tree) {
    && [] in t && t[[]].Dir?
    && forall p {:trigger Parent(p)} | p in t && p != [] :: Parent(p) in t && t[Parent(p)].Dir?
  }

  function Parent(p: Path): Path
    requires p != []
  {
    p[..|p| - 1]
  }

  predicate IsFile(t: Tree, p: Path) {
    p in t && t[p].File?
  }

  function Children(t: Tree, d: Path): set<Path> {
    set q | q in t && q != [] && Parent(q) == d
  }

  /** Everything at or under d. */
  function Subtree(t: Tree, d: Path): set<Path> {
    set q | q in t && d <= q
  }

  lemma {:induction false} AncestorIsDir(t: Tree, p: Path, i: nat)
    requires Valid(t) && p in t && i < |p|
    ensures p[..i] in t && t[p[..i]].Dir?
    decreases |p|
  {
    assert Parent(p) in t && t[Parent(p)].Dir?;
    if i < |p| - 1 {
      AncestorIsDir(t, Parent(p), i);
      assert Parent(p)[..i] == p[..i];
    } else {
      assert p[..i] == Parent(p);
    }
  }

  lemma NothingBelow(t: Tree, p: Path, q: Path)
    requires Valid(t) && p in t && !t[p].Dir? && q in t && p <= q
    ensures p == q
  {
    assert q[..|p|] == p;
    if |p| < |q| {
      AncestorIsDir(t, q, |p|);
    }
  }

  lemma ChildToward(t: Tree, d: Path, q: Path)
    requires Valid(t) && q in t && d < q
    ensures q[..|d| + 1] in Children(t, d)
  {
    if |d| + 1 < |q| {
      AncestorIsDir(t, q, |d| + 1);
    } else {
      assert q[..|d| + 1] == q;
    }
    assert Parent(q[..|d| + 1]) == d;
  }

  lemma SubtreeShrinks(t: Tree, c: Path)
    requires c in t && c != [] && Parent(c) in t
    ensures Subtree(t, c) < Subtree(t, Parent(c))
  {
    var d := Parent(c);
    forall q | q in Subtree(t, c)
      ensures q in Subtree(t, d)
    {
      assert d <= c <= q;
    }
    assert d in Subtree(t, d) && d !in Subtree(t, c);
  }

  // ---------- The tree that holds given entries ----------

  function Ancestors(paths: set<Path>): set<Path> {
    set p, i | p in paths && 0 <= i < |p| :: p[..i]
  }

  /** No entry lies under another. */
  ghost predicate NoNesting(leaves: map<Path, Node>) {
    [] !in leaves && forall p, q | p in leaves && q in leaves :: !(p < q)
  }

  /** The directory that holds the given entries and the directories they lie in. */
  function Grown(leaves: map<Path, Node>): Tree {
    map q | q in leaves.Keys + Ancestors(leaves.Keys) + {[]} :: if q in leaves then leaves[q] else Dir
  }

  lemma GrownIsValid(leaves: map<Path, Node>)
    requires NoNesting(leaves)
    ensures Valid(Grown(leaves))
    ensures forall p <- leaves :: p in Grown(leaves) && Grown(leaves)[p] == leaves[p]
    ensures forall p | p in Grown(leaves) && p !in leaves :: Grown(leaves)[p].Dir?
  {
    var t := Grown(leaves);
    forall q | q in t && q != []
      ensures Parent(q) in t && t[Parent(q)].Dir?
    {
      var p: Path, i: nat := q, |q|;
      if q !in leaves {
        p, i :| p in leaves && 0 <= i < |p| && q == p[..i];
      }
      assert Parent(q) == p[..i - 1];
      assert Parent(q) < p;
    }
  }

  /** Nothing else is there. */
  lemma GrownAbove(leaves: map<Path, Node>)
    ensures forall q <- Grown(leaves) :: q == [] || exists p <- leaves :: q <= p
  {
    forall q <- Grown(leaves)
      ensures q == [] || exists p <- leaves :: q <= p
    {
      if q in Ancestors(leaves.Keys) {
        var p, i :| p in leaves && 0 <= i < |p| && q == p[..i];
        assert q <= p;
      }
    }
  }

  function Empty(paths: set<Path>): map<Path, seq<Byte>> {
    map q | q in paths :: []
  }

  function Files(contents: map<Path, seq<Byte>>): map<Path, Node> {
    map q | q in contents :: Node.File(contents[q], false)
  }

  /** The directory that holds these files and nothing else. */
  lemma OnlyFiles(contents: map<Path, seq<Byte>>)
    requires [] !in contents && forall p, q | p in contents && q in contents :: !(p < q)
    ensures var t := Grown(Files(contents));
            && Valid(t) && (forall q :: IsFile(t, q) <==> q in contents)
            && (forall q <- t :: q == [] || exists p <- contents :: q <= p)
  {
    var leaves := Files(contents);
    GrownIsValid(leaves);
    GrownAbove(leaves);
    forall q <- Grown(leaves)
      ensures q == [] || exists p <- contents :: q <= p
    {
      if q != [] {
        var p :| p in leaves && q <= p;
        assert p in contents;
      }
    }
  }
}
