/**
 Telling whether an upload is exactly the commit checked out where it was made
 (internal/deploycommit/deploycommit.go). What git and the disk answer is given: the attributes it reads,
 the index it lists, the files it neither tracks nor ignores.
 */
module DeployCommit {
  import opened Collections
  import opened Strings
  import opened Wrappers
  import opened Worktree
  import BlobFile

  const MODE_EXECUTABLE := "100755"
  const MODE_SYMLINK := "120000"
  const MODE_GITLINK := "160000"
  const MAX_PATH_ARGS := 8000

  /** One file in the commit. */
  datatype Entry = Entry(mode: string, blob: string)

  type Attributes = map<string, string>

  /** One index entry, as `git ls-files -s` lists it. */
  datatype IndexRecord = IndexRecord(mode: string, object_: string, stage: string, path: Path)

  /** A file, or a directory, git neither tracks nor ignores. */
  datatype Untracked = Untracked(path: Path, isDir: bool)

  /** What git answers here; None when the command fails. */
  datatype Git = Git(attributes: Option<Path -> Attributes>, index: Option<seq<IndexRecord>>,
                     untracked: Option<seq<Untracked>>, ignores: Option<Path -> bool>)

  /** The repository at one commit: its files, its submodules, and what git does here. */
  datatype Repository = Repository(tree: map<Path, Entry>, gitlinks: map<Path, string>, fileMode: bool,
                                   autocrlf: bool, git: Git)

  // ---------- Repository paths ----------

  predicate Within(dir: Path, path: Path) {
    dir <= path
  }

  /** path, which is at or under dir, relative to dir; dir itself stays as it is. */
  function UnderDir(dir: Path, path: Path): Path
    requires Within(dir, path)
  {
    if dir < path then path[|dir|..] else path
  }

  /** The length in bytes of a path with its segments joined by slashes. */
  function PathLength(p: Path): nat {
    if p == [] then 0 else if |p| == 1 then |p[0]| else |p[0]| + 1 + PathLength(p[1..])
  }

  lemma {:induction false} PathLengthMeans(p: Path)
    ensures PathLength(p) == |Join(p, "/")|
  {
    if |p| > 1 {
      PathLengthMeans(p[1..]);
    }
  }

  // ---------- Line endings and Git LFS ----------

  /** A path whose content is the commit's only if its attributes allow a conversion: lfs tells which. */
  datatype Match = Match(path: Path, binary: bool, lfs: bool)

  datatype LineEnding = ConvertUnset | ConvertNone | ConvertText | ConvertAuto

  function Attribute(attrs: Attributes, name: string): string {
    if name in attrs then attrs[name] else ""
  }

  function LineEndingAttribute(value: string): LineEnding {
    if value == "set" || value == "input" then ConvertText
    else if value == "unset" then ConvertNone
    else if value == "auto" then ConvertAuto
    else ConvertUnset
  }

  /** lineEndings: the conversion that the four settings of a file lead to. */
  method LineEndings(attrs: Attributes, autocrlf: bool) returns (action: LineEnding)
    ensures action == LineEndingsOf(attrs, autocrlf)
  {
    action := LineEndingAttribute(Attribute(attrs, "text"));
    if action == ConvertUnset {
      action := LineEndingAttribute(Attribute(attrs, "crlf"));
    }
    var eol := Attribute(attrs, "eol");
    if action == ConvertUnset && (eol == "lf" || eol == "crlf") {
      action := ConvertText;
    }
    if action == ConvertUnset && autocrlf {
      action := ConvertAuto;
    }
    if action == ConvertUnset {
      action := ConvertNone;
    }
  }

  /** The first of text, crlf, eol and core.autocrlf that says anything decides. */
  function LineEndingsOf(attrs: Attributes, autocrlf: bool): LineEnding {
    var text, crlf := LineEndingAttribute(Attribute(attrs, "text")), LineEndingAttribute(Attribute(attrs, "crlf"));
    if text != ConvertUnset then text
    else if crlf != ConvertUnset then crlf
    else if Attribute(attrs, "eol") in {"lf", "crlf"} then ConvertText
    else if autocrlf then ConvertAuto
    else ConvertNone
  }

  /** Whether git stores the file of m as the commit holds it. */
  predicate Stores(attrs: Attributes, autocrlf: bool, m: Match) {
    if m.lfs then Attribute(attrs, "filter") == "lfs"
    else
      var action := LineEndingsOf(attrs, autocrlf);
      action == ConvertText || (action == ConvertAuto && !m.binary)
  }

  /** A text or crlf attribute that says something of line endings. */
  predicate Says(attrs: Attributes, name: string) {
    name in attrs && attrs[name] in {"set", "input", "unset", "auto"}
  }

  /**
   A file of Git LFS is stored as its pointer when its filter is lfs. Another is stored with its CRLF as LF when its
   text attribute is set or input, or auto for what is not binary; when that says nothing its crlf attribute decides the
   same, then an eol of lf or crlf does it, and then core.autocrlf for what is not binary.
   */
  lemma StoresMeans(attrs: Attributes, autocrlf: bool, m: Match)
    ensures m.lfs ==> (Stores(attrs, autocrlf, m) <==> "filter" in attrs && attrs["filter"] == "lfs")
    ensures !m.lfs ==>
              (Stores(attrs, autocrlf, m) <==>
                 if Says(attrs, "text") then attrs["text"] in {"set", "input"} || (attrs["text"] == "auto" && !m.binary)
                 else if Says(attrs, "crlf") then
                   attrs["crlf"] in {"set", "input"} || (attrs["crlf"] == "auto" && !m.binary)
                 else ("eol" in attrs && attrs["eol"] in {"lf", "crlf"}) || (autocrlf && !m.binary))
  {
    AttributeMeans(attrs, "text");
    AttributeMeans(attrs, "crlf");
    hide LineEndingAttribute;
    assert "" !in {"lf", "crlf"};
  }

  lemma AttributeMeans(attrs: Attributes, name: string)
    ensures var action := LineEndingAttribute(Attribute(attrs, name));
            && (action == ConvertUnset <==> !Says(attrs, name))
            && (Says(attrs, name) ==>
                  && (action == ConvertText <==> attrs[name] in {"set", "input"})
                  && (action == ConvertAuto <==> attrs[name] == "auto"))
  {
    assert "" !in {"set", "input", "unset", "auto"};
  }

  datatype Verdict = Yes | No | Failed

  /** How a batch of arguments is bounded: one path may be of any length. */
  predicate FitsCommandLine(batch: seq<Path>) {
    batch != [] && (|batch| == 1 || ArgumentSize(batch) < MAX_PATH_ARGS)
  }

  /** The bytes of a command line's paths, with a separator between two. */
  function ArgumentSize(batch: seq<Path>): int {
    if batch == [] then -1 else ArgumentSize(batch[..|batch| - 1]) + PathLength(batch[|batch| - 1]) + 1
  }

  /** They are the paths written out, with one byte between two. */
  lemma {:induction false} ArgumentSizeMeans(batch: seq<Path>, texts: seq<string>)
    requires |texts| == |batch| && forall i | 0 <= i < |batch| :: texts[i] == Join(batch[i], "/")
    ensures batch != [] ==> ArgumentSize(batch) == |Join(texts, " ")|
  {
    hide PathLength;
    if batch != [] {
      var n := |batch| - 1;
      PathLengthMeans(batch[n]);
      ArgumentSizeMeans(batch[..n], texts[..n]);
      if n > 0 {
        JoinLast(texts, " ");
      }
    }
  }

  /** A command line takes one path of any length, or more with less than 8000 bytes. */
  lemma FitsMeans(batch: seq<Path>, texts: seq<string>)
    requires |texts| == |batch| && forall i | 0 <= i < |batch| :: texts[i] == Join(batch[i], "/")
    ensures FitsCommandLine(batch) <==> batch != [] && (|batch| == 1 || |Join(texts, " ")| < 8000)
  {
    ArgumentSizeMeans(batch, texts);
    hide ArgumentSize;
  }

  /** The batch has no room for the first of the paths that follow, if any do. */
  predicate FullBefore(batch: seq<Path>, rest: seq<Path>) {
    rest != [] ==> !FitsCommandLine(batch + [rest[0]])
  }

  predicate Full(batches: seq<seq<Path>>) {
    forall i, j | 0 <= i && j == i + 1 < |batches| :: FullBefore(batches[i], batches[j])
  }

  /** pathBatches: the batches are the paths in order, none is empty, and each fits a command line and is full. */
  method PathBatches(paths: seq<Path>) returns (batches: seq<seq<Path>>)
    ensures Flatten(batches) == paths && Full(batches)
    ensures forall batch <- batches :: FitsCommandLine(batch)
  {
    hide FitsCommandLine, FullBefore, Full;
    batches := [];
    NoBatches();
    var rest := paths;
    while rest != []
      invariant Flatten(batches) + rest == paths && Full(batches)
      invariant batches != [] ==> FullBefore(batches[|batches| - 1], rest)
      invariant forall batch <- batches :: FitsCommandLine(batch)
      decreases |rest|
    {
      var n := TakeBatch(rest);
      FullThen(batches, rest, n);
      FlattenSnoc(batches, rest[..n]);
      assert Flatten(batches) + rest[..n] + rest[n..] == Flatten(batches) + rest;
      batches := batches + [rest[..n]];
      rest := rest[n..];
    }
    assert Flatten(batches) + [] == Flatten(batches);
  }

  lemma NoBatches()
    ensures Full([])
  {
  }

  lemma FullThen(batches: seq<seq<Path>>, rest: seq<Path>, n: nat)
    requires Full(batches) && 0 < n <= |rest| && (batches != [] ==> FullBefore(batches[|batches| - 1], rest))
    requires n < |rest| ==> !FitsCommandLine(rest[..n + 1])
    ensures Full(batches + [rest[..n]]) && FullBefore(rest[..n], rest[n..])
  {
    hide FitsCommandLine;
    assert n < |rest| ==> rest[..n + 1] == rest[..n] + [rest[n]];
  }

  /** How many of paths go on one command line. */
  method TakeBatch(paths: seq<Path>) returns (n: nat)
    requires paths != []
    ensures 0 < n <= |paths| && FitsCommandLine(paths[..n])
    ensures n < |paths| ==> !FitsCommandLine(paths[..n + 1])
  {
    var size := 0;
    n := 0;
    while n < |paths| && (n == 0 || size + PathLength(paths[n]) < MAX_PATH_ARGS)
      invariant n <= |paths| && size == ArgumentSize(paths[..n]) + 1
      invariant n > 0 ==> FitsCommandLine(paths[..n])
    {
      assert paths[..n + 1][..n] == paths[..n];
      size := size + PathLength(paths[n]) + 1;
      n := n + 1;
    }
    assert n < |paths| ==> paths[..n + 1][..n] == paths[..n];
  }

  function PathsOf(matches: seq<Match>): seq<Path> {
    seq(|matches|, i requires 0 <= i < |matches| => matches[i].path)
  }

  /**
   attributesAllow: Yes exactly when every match is allowed, however they are batched. It fails exactly when there
   is a match and git cannot be asked.
   */
  method AttributesAllow(s: Repository, matches: seq<Match>) returns (v: Verdict)
    ensures v == Failed <==> s.git.attributes.None? && matches != []
    ensures s.git.attributes.Some? ==>
              (v == Yes <==> forall m <- matches :: Stores(s.git.attributes.value(m.path), s.autocrlf, m))
    ensures matches == [] ==> v == Yes
  {
    hide Stores, FitsCommandLine, FullBefore;
    var rest := matches;
    ghost var done: seq<Match> := [];
    while rest != []
      invariant done + rest == matches
      invariant done != [] ==> s.git.attributes.Some?
      invariant s.git.attributes.Some? ==> forall m <- done :: Stores(s.git.attributes.value(m.path), s.autocrlf, m)
      decreases |rest|
    {
      var n := TakeBatch(PathsOf(rest));
      if s.git.attributes.None? {
        return Failed;
      }
      var batch := rest[..n];
      v := BatchAllows(s, batch);
      if v == No {
        assert forall m <- batch :: m in matches;
        return;
      }
      assert done + batch + rest[n..] == done + rest;
      done := done + batch;
      rest := rest[n..];
    }
    v := Yes;
  }

  method BatchAllows(s: Repository, batch: seq<Match>) returns (v: Verdict)
    requires s.git.attributes.Some?
    ensures v == if (forall m <- batch :: Stores(s.git.attributes.value(m.path), s.autocrlf, m)) then Yes else No
  {
    for i := 0 to |batch|
      invariant forall j | 0 <= j < i :: Stores(s.git.attributes.value(batch[j].path), s.autocrlf, batch[j])
    {
      var m := batch[i];
      var attrs := s.git.attributes.value(m.path);
      if m.lfs {
        if Attribute(attrs, "filter") != "lfs" {
          return No;
        }
        continue;
      }
      var action := LineEndings(attrs, s.autocrlf);
      if action == ConvertText {
      } else if action == ConvertAuto {
        if m.binary {
          return No;
        }
      } else {
        return No;
      }
    }
    v := Yes;
  }

  // ---------- Content ----------

  datatype Comparison = Equal | Needs(m: Match) | Different

  /** compare: Equal or Different, or the match whose attributes decide it. */
  function Compare(path: Path, entry: Entry, file: BlobFile.File): Comparison {
    if entry.blob == file.raw then Equal
    else if entry.blob == file.lf then Needs(Match(path, file.binary, false))
    else if entry.blob == file.lfs then Needs(Match(path, false, true))
    else Different
  }

  /** The file has the commit's content, raw or as git's attributes have it stored. */
  predicate HasContent(s: Repository, path: Path, entry: Entry, file: BlobFile.File) {
    match Compare(path, entry, file)
    case Equal => true
    case Needs(m) => s.git.attributes.Some? && Stores(s.git.attributes.value(path), s.autocrlf, m)
    case Different => false
  }

  /**
   The blob committed is that of the bytes as they are; or of them with LF line endings, or else of their LFS pointer,
   and git's attributes for the path say that it stores them so.
   */
  lemma HasContentMeans(s: Repository, path: Path, entry: Entry, file: BlobFile.File)
    ensures HasContent(s, path, entry, file)
       <==> || entry.blob == file.raw
            || (&& s.git.attributes.Some?
                && var attrs := s.git.attributes.value(path);
                   if entry.blob == file.lf then Stores(attrs, s.autocrlf, Match(path, file.binary, false))
                   else entry.blob == file.lfs && "filter" in attrs && attrs["filter"] == "lfs")
  {
    if s.git.attributes.Some? {
      StoresMeans(s.git.attributes.value(path), s.autocrlf, Match(path, false, true));
    }
    hide LineEndingsOf;
  }

  // ---------- Whether an upload differs from the commit ----------

  /** One uploaded file: where it is in the repository, if it is, and what was recorded of it. */
  datatype Upload = Upload(path: Option<Path>, executable: Option<bool>, file: BlobFile.File)

  /** The upload is a file of the commit under dir, with its mode where both keep one. */
  predicate Committed(s: Repository, dir: Path, f: Upload) {
    && f.path.Some? && Within(dir, f.path.value) && f.path.value in s.tree
    && s.tree[f.path.value].mode != MODE_SYMLINK
    && (f.executable.Some? && s.fileMode ==> (s.tree[f.path.value].mode == MODE_EXECUTABLE) == f.executable.value)
  }

  /** Every committed file under dir is uploaded or left out by rule. */
  predicate LacksNothing(s: Repository, dir: Path, files: seq<Upload>, leftOut: Path -> bool) {
    forall path <- s.tree | Within(dir, path) ::
      leftOut(UnderDir(dir, path)) || exists f :: f in files && f.path == Some(path)
  }

  /** What differs finds out before it reads attributes. */
  predicate MightMatch(s: Repository, dir: Path, f: Upload) {
    Committed(s, dir, f) && !Compare(f.path.value, s.tree[f.path.value], f.file).Different?
  }

  predicate NeedsAttributes(s: Repository, dir: Path, f: Upload) {
    MightMatch(s, dir, f) && Compare(f.path.value, s.tree[f.path.value], f.file).Needs?
  }

  /**
   An upload does not differ from the commit when every file of it is one that is committed under dir, as no symlink,
   with its content, and executable when the commit has it so where both keep that; and when every file committed under
   dir is among them or one that is left out, named from dir.
   */
  lemma NoDifferenceMeans(s: Repository, dir: Path, files: seq<Upload>, leftOut: Path -> bool)
    ensures ((forall f <- files :: Committed(s, dir, f) && HasContent(s, f.path.value, s.tree[f.path.value], f.file))
             && LacksNothing(s, dir, files, leftOut))
       <==> && (forall f <- files ::
                  && f.path.Some? && dir <= f.path.value && f.path.value in s.tree
                  && var entry := s.tree[f.path.value];
                     && entry.mode != "120000" && HasContent(s, f.path.value, entry, f.file)
                     && (f.executable.None? || !s.fileMode || f.executable.value == (entry.mode == "100755")))
            && forall path <- s.tree | dir <= path ::
                 || Some(path) in (set f | f in files :: f.path)
                 || leftOut(if path == dir then path else path[|dir|..])
  {
    hide HasContent;
    forall path | path in s.tree && dir <= path
      ensures Some(path) in (set f | f in files :: f.path) <==> exists f :: f in files && f.path == Some(path)
    {
    }
  }

  /** Attributes decide only for what is committed so, by another form of its content. */
  lemma NeedsAttributesMeans(s: Repository, dir: Path, f: Upload)
    ensures NeedsAttributes(s, dir, f)
       <==> && Committed(s, dir, f)
            && var blob := s.tree[f.path.value].blob; blob != f.file.raw && blob in {f.file.lf, f.file.lfs}
    ensures MightMatch(s, dir, f)
       <==> Committed(s, dir, f) && s.tree[f.path.value].blob in {f.file.raw, f.file.lf, f.file.lfs}
  {
  }

  /**
   differs answers No, without an error, exactly when each upload is committed at its path with its content
   and mode, and the upload lacks no committed file; it fails exactly when attributes
   that decide it cannot be read.
   */
  method Differs(s: Repository, dir: Path, files: seq<Upload>, leftOut: Path -> bool) returns (v: Verdict)
    ensures v == No <==>
              && (forall f <- files ::
                    Committed(s, dir, f) && HasContent(s, f.path.value, s.tree[f.path.value], f.file))
              && LacksNothing(s, dir, files, leftOut)
    ensures v == Failed <==>
              && s.git.attributes.None? && (forall f <- files :: MightMatch(s, dir, f))
              && exists f :: f in files && NeedsAttributes(s, dir, f)
  {
    var ok, matches, uploaded := Collect(s, dir, files);
    if !ok {
      return Yes;
    }
    var allowed := AttributesAllow(s, matches);
    if allowed == Failed {
      assert matches[0] in matches;
      return Failed;
    }
    if allowed == No {
      return Yes;
    }
    v := Lacks(s, dir, files, uploaded, leftOut);
  }

  /** The loop over the uploaded files: false at the first that cannot match the commit. */
  method Collect(s: Repository, dir: Path, files: seq<Upload>)
    returns (ok: bool, matches: seq<Match>, uploaded: set<Path>)
    ensures ok <==> forall f <- files :: MightMatch(s, dir, f)
    ensures ok ==>
              && uploaded == (set f | f in files :: f.path.value)
              && (forall f <- files :: NeedsAttributes(s, dir, f) ==> NeedOf(s, f) in matches)
              && (forall m <- matches :: exists f :: f in files && NeedsAttributes(s, dir, f) && m == NeedOf(s, f))
  {
    ok, matches, uploaded := true, [], {};
    for i := 0 to |files|
      invariant forall f <- files[..i] :: MightMatch(s, dir, f)
      invariant uploaded == set f | f in files[..i] :: f.path.value
      invariant forall f <- files[..i] :: NeedsAttributes(s, dir, f) ==> NeedOf(s, f) in matches
      invariant forall m <- matches :: exists f :: f in files[..i] && NeedsAttributes(s, dir, f) && m == NeedOf(s, f)
    {
      var f := files[i];
      assert f in files && files[..i + 1] == files[..i] + [f];
      assert f in files[..i + 1] && forall g <- files[..i] :: g in files[..i + 1];
      if f.path.None? || !Within(dir, f.path.value) {
        return false, matches, uploaded;
      }
      var path := f.path.value;
      uploaded := uploaded + {path};
      if path !in s.tree || s.tree[path].mode == MODE_SYMLINK {
        return false, matches, uploaded;
      }
      var entry := s.tree[path];
      if f.executable.Some? && s.fileMode && (entry.mode == MODE_EXECUTABLE) != f.executable.value {
        return false, matches, uploaded;
      }
      if entry.blob == f.file.raw {
      } else if entry.blob == f.file.lf {
        matches := matches + [Match(path, f.file.binary, false)];
        assert NeedsAttributes(s, dir, f);
      } else if entry.blob == f.file.lfs {
        matches := matches + [Match(path, false, true)];
        assert NeedsAttributes(s, dir, f);
      } else {
        return false, matches, uploaded;
      }
    }
    assert files[..|files|] == files;
  }

  function NeedOf(s: Repository, f: Upload): Match
    requires f.path.Some? && f.path.value in s.tree
    requires Compare(f.path.value, s.tree[f.path.value], f.file).Needs?
  {
    Compare(f.path.value, s.tree[f.path.value], f.file).m
  }

  /** lacks: Yes exactly when some committed file below dir was neither uploaded nor left out. */
  method Lacks(s: Repository, dir: Path, ghost files: seq<Upload>, uploaded: set<Path>, leftOut: Path -> bool)
    returns (v: Verdict)
    requires forall f <- files :: f.path.Some?
    requires uploaded == set f | f in files :: f.path.value
    ensures v == if LacksNothing(s, dir, files, leftOut) then No else Yes
  {
    var todo := s.tree.Keys;
    while todo != {}
      invariant todo <= s.tree.Keys
      invariant forall path | path in s.tree.Keys - todo && Within(dir, path) ::
                  leftOut(UnderDir(dir, path)) || exists f :: f in files && f.path == Some(path)
    {
      var path :| path in todo;
      todo := todo - {path};
      if !Within(dir, path) || path in uploaded {
        continue;
      }
      if leftOut(UnderDir(dir, path)) {
        continue;
      }
      return Yes;
    }
    v := No;
  }
}
