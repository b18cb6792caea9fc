/** Which files of a project no package includes (internal/ignore/matcher.go, cloudIgnorePatterns in packager.go). */
module Ignore {
  import opened Wrappers
  import opened BlobFile
  import opened Worktree
  import opened DirectoryReader

  predicate EndsWith(s: string, end: string) {
    |end| <= |s| && s[|s| - |end|..] == end
  }

  predicate IgnoredWhole(s: string) {
    s in {".git", ".gitignore", ".DS_Store", "__pycache__", ".pytest_cache", ".mypy_cache", ".ruff_cache", ".bundle",
          ".vscode", ".idea", "node_modules", ".next", "dist", "build", "python_deps", "vendor", ".venv", "venv",
          "site-packages"}
  }

  /** The names left out of every package: defaultPatterns and cloudIgnorePatterns. */
  predicate IgnoredName(s: string) {
    || IgnoredWhole(s)
    || EndsWith(s, ".pyc") || EndsWith(s, ".pyo") || EndsWith(s, ".rbc") || EndsWith(s, ".log") || EndsWith(s, ".swp")
    || EndsWith(s, ".swo")
  }

  /** matchAny: a pattern that decides by the path alone. */
  type Patterns = Path -> bool

  /** The patterns of every project: a path any segment of which has such a name is left out. */
  function BuiltIn(): Patterns {
    p => exists i | 0 <= i < |p| :: IgnoredName(p[i])
  }

  /** A .gitignore, read: what it says of a path, and of whether that is a directory. */
  type Compiled = (Path, bool) -> bool

  /** CompileIgnoreFile: what the lines of a file mean. Any meaning is allowed. */
  type Meaning = seq<Byte> -> Compiled

  /** The meaning does not depend on how lines end. */
  ghost predicate EndingsAside(meaning: Meaning) {
    forall content :: meaning(content) == meaning(ToLF(content))
  }

  function Gitignore(): Path {
    [".gitignore"]
  }

  /** The content of the project's .gitignore, None when it has none. */
  function IgnoreFile(t: Tree): Option<seq<Byte>> {
    if IsFile(t, Gitignore()) then Some(t[Gitignore()].content) else None
  }

  function Combined(patterns: Patterns, compiled: Option<Compiled>): Matcher {
    (p, q, isDir) => patterns(p) || (compiled.Some? && compiled.value(q, isDir))
  }

  /** ShouldIgnoreWith, for the matcher NewProjectMatcher makes. */
  function IgnoreRules(patterns: Patterns, meaning: Meaning, file: Option<seq<Byte>>): Matcher {
    Combined(patterns, if file.Some? then Some(meaning(file.value)) else None)
  }

  /** The rules leave out all that the patterns do. */
  ghost predicate Includes(m: Matcher, patterns: Patterns) {
    forall p, q, isDir | patterns(p) :: m(p, q, isDir)
  }

  lemma RulesInclude(patterns: Patterns, meaning: Meaning, file: Option<seq<Byte>>)
    ensures Includes(IgnoreRules(patterns, meaning, file), patterns)
  {
  }
}
