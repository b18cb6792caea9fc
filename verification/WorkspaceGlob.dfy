/** Workspace globs with ** (matchGlobSegments and workspaceContains in internal/frontend/workspace.go). */
module WorkspaceGlob {
  import opened Collections
  import opened Strings

  /** match is path.Match, false for a malformed pattern; clean is path.Clean. */
  datatype Globbing = Globbing(match_: (string, string) -> bool, clean: string -> string)

  const ANY := "**"

  /** What a pattern segment stands for: any run of segments, or one that matches it. */
  predicate StandsFor(g: Globbing, segment: string, run: seq<string>) {
    segment == ANY || (|run| == 1 && g.match_(segment, run[0]))
  }

  /** Each segment of the pattern can be replaced by a run it stands for so that the path results. */
  ghost predicate Means(g: Globbing, pattern: seq<string>, name: seq<string>) {
    exists runs: seq<seq<string>> ::
      |runs| == |pattern| && Flatten(runs) == name && forall i | 0 <= i < |runs| :: StandsFor(g, pattern[i], runs[i])
  }

  /** A pattern means a path exactly when its first segment stands for a first part and the rest means what remains. */
  lemma FirstSegment(g: Globbing, pattern: seq<string>, name: seq<string>)
    requires pattern != []
    ensures Means(g, pattern, name)
       <==> exists i | 0 <= i <= |name| :: StandsFor(g, pattern[0], name[..i]) && Means(g, pattern[1..], name[i..])
  {
    if Means(g, pattern, name) {
      var i := Divide(g, pattern, name);
    }
    if i :| 0 <= i <= |name| && StandsFor(g, pattern[0], name[..i]) && Means(g, pattern[1..], name[i..]) {
      Combine(g, pattern, name, i);
    }
  }

  lemma Divide(g: Globbing, pattern: seq<string>, name: seq<string>) returns (i: nat)
    requires pattern != [] && Means(g, pattern, name)
    ensures i <= |name| && StandsFor(g, pattern[0], name[..i]) && Means(g, pattern[1..], name[i..])
  {
    hide StandsFor;
    var runs: seq<seq<string>> :|
      |runs| == |pattern| && Flatten(runs) == name && forall i | 0 <= i < |runs| :: StandsFor(g, pattern[i], runs[i]);
    i := |runs[0]|;
    assert name[..i] == runs[0] && name[i..] == Flatten(runs[1..]);
  }

  lemma Combine(g: Globbing, pattern: seq<string>, name: seq<string>, i: nat)
    requires pattern != [] && i <= |name|
    requires StandsFor(g, pattern[0], name[..i]) && Means(g, pattern[1..], name[i..])
    ensures Means(g, pattern, name)
  {
    hide StandsFor;
    var runs: seq<seq<string>> :|
      && |runs| == |pattern[1..]| && Flatten(runs) == name[i..]
      && forall k | 0 <= k < |runs| :: StandsFor(g, pattern[1..][k], runs[k]);
    var all := [name[..i]] + runs;
    assert all[1..] == runs && name == name[..i] + name[i..];
    forall k | 0 <= k < |all|
      ensures StandsFor(g, pattern[k], all[k])
    {
      assert k > 0 ==> pattern[k] == pattern[1..][k - 1] && all[k] == runs[k - 1];
    }
    assert |all| == |pattern| && Flatten(all) == name;
  }

  lemma NoPattern(g: Globbing, name: seq<string>)
    ensures Means(g, [], name) <==> name == []
  {
    if name == [] {
      var runs: seq<seq<string>> := [];
      assert Flatten(runs) == [];
    }
  }

  /** A last ** takes whatever is left. */
  lemma AnyTakesAll(g: Globbing, name: seq<string>)
    ensures Means(g, [ANY], name)
  {
    FirstSegment(g, [ANY], name);
    NoPattern(g, []);
    assert name[|name|..] == [] && [ANY][1..] == [];
  }

  /** matchGlobSegments */
  method Matches(g: Globbing, pattern0: seq<string>, name0: seq<string>) returns (r: bool)
    ensures r <==> Means(g, pattern0, name0)
    decreases |pattern0|
  {
    hide Means;
    var pattern, name := pattern0, name0;
    while |pattern| > 0
      invariant |pattern| <= |pattern0| && (Means(g, pattern, name) <==> Means(g, pattern0, name0))
      decreases |pattern|
    {
      FirstSegment(g, pattern, name);
      var head := pattern[0];
      if head == ANY {
        var rest := pattern[1..];
        if |rest| == 0 {
          AnyTakesAll(g, name);
          assert pattern == [ANY];
          return true;
        }
        for i := 0 to |name| + 1
          invariant forall k | 0 <= k < i :: !Means(g, rest, name[k..])
        {
          var ok := Matches(g, rest, name[i..]);
          if ok {
            return true;
          }
        }
        return false;
      }
      if |name| == 0 || !g.match_(head, name[0]) {
        return false;
      }
      OneSegment(g, head, pattern[1..], name);
      pattern, name := pattern[1..], name[1..];
    }
    NoPattern(g, name);
    r := |name| == 0;
  }

  lemma OneSegment(g: Globbing, head: string, rest: seq<string>, name: seq<string>)
    requires name != [] && head != ANY && g.match_(head, name[0])
    ensures Means(g, [head] + rest, name) <==> Means(g, rest, name[1..])
  {
    FirstSegment(g, [head] + rest, name);
    assert ([head] + rest)[1..] == rest;
    assert StandsFor(g, head, name[..1]);
  }

  // ---------- Workspace declarations ----------

  function WithoutFinalSlash(glob: string): string {
    if glob != "" && glob[|glob| - 1] == '/' then glob[..|glob| - 1] else glob
  }

  /** matchWorkspaceGlob: a glob for the root itself matches nothing. */
  ghost predicate GlobMeans(g: Globbing, glob: string, relPath: string) {
    var cleaned := g.clean(WithoutFinalSlash(glob));
    cleaned != "." && cleaned != "" && Means(g, Split(cleaned, '/'), Split(relPath, '/'))
  }

  /**
   A glob means a path when each segment of it, cleaned and without a slash at its end, can be replaced by segments so
   that the path results: "**" by any, another by one that it matches.
   */
  lemma GlobExactlyWhen(g: Globbing, glob: string, relPath: string)
    ensures GlobMeans(g, glob, relPath)
       <==> var slash := glob != "" && glob[|glob| - 1] == '/';
            var cleaned := g.clean(if slash then glob[..|glob| - 1] else glob);
            && cleaned !in {".", ""}
            && exists runs :: InRuns(g, Split(cleaned, '/'), Split(relPath, '/'), runs)
  {
    var slash := glob != "" && glob[|glob| - 1] == '/';
    var cleaned := g.clean(if slash then glob[..|glob| - 1] else glob);
    MeansExactlyWhen(g, Split(cleaned, '/'), Split(relPath, '/'));
    hide Means, Split, InRuns;
  }

  /** The segments of name, in runs: any number for each "**" of the pattern, and one that it matches for another. */
  predicate InRuns(g: Globbing, pattern: seq<string>, name: seq<string>, runs: seq<seq<string>>) {
    && |runs| == |pattern| && Flatten(runs) == name
    && forall i | 0 <= i < |runs| :: pattern[i] == "**" || (|runs[i]| == 1 && g.match_(pattern[i], runs[i][0]))
  }

  lemma MeansExactlyWhen(g: Globbing, pattern: seq<string>, name: seq<string>)
    ensures Means(g, pattern, name) <==> exists runs :: InRuns(g, pattern, name, runs)
  {
    hide Flatten;
    if Means(g, pattern, name) {
      var runs: seq<seq<string>> :|
        |runs| == |pattern| && Flatten(runs) == name && forall i | 0 <= i < |runs| :: StandsFor(g, pattern[i], runs[i]);
      forall i | 0 <= i < |runs|
        ensures pattern[i] == "**" || (|runs[i]| == 1 && g.match_(pattern[i], runs[i][0]))
      {
        assert StandsFor(g, pattern[i], runs[i]);
      }
      assert InRuns(g, pattern, name, runs);
    }
    if runs :| InRuns(g, pattern, name, runs) {
      forall i | 0 <= i < |runs|
        ensures StandsFor(g, pattern[i], runs[i])
      {
        assert pattern[i] == "**" || (|runs[i]| == 1 && g.match_(pattern[i], runs[i][0]));
      }
    }
  }

  method MatchWorkspaceGlob(g: Globbing, glob: string, relPath: string) returns (r: bool)
    ensures r <==> GlobMeans(g, glob, relPath)
  {
    var cleaned := g.clean(WithoutFinalSlash(glob));
    if cleaned == "." || cleaned == "" {
      return false;
    }
    r := Matches(g, Split(cleaned, '/'), Split(relPath, '/'));
  }

  predicate Negated(glob: string) {
    glob != "" && glob[0] == '!'
  }

  ghost predicate Decides(g: Globbing, glob: string, relPath: string) {
    GlobMeans(g, if Negated(glob) then glob[1..] else glob, relPath)
  }

  /** What follows an exclamation mark is what a negated glob is about. */
  lemma DecidesMeans(g: Globbing, glob: string, relPath: string)
    ensures Decides(g, "!" + glob, relPath) <==> GlobMeans(g, glob, relPath)
    ensures Negated("!" + glob)
    ensures !("!" <= glob) ==> !Negated(glob) && (Decides(g, glob, relPath) <==> GlobMeans(g, glob, relPath))
  {
    hide GlobMeans;
    assert ("!" + glob)[1..] == glob;
  }

  /** workspaceContains: the last glob that matches decides, and it is not a negated one. */
  method WorkspaceContains(g: Globbing, globs: seq<string>, relPath: string) returns (matched: bool)
    ensures matched <==> exists i | 0 <= i < |globs| ::
              && Decides(g, globs[i], relPath) && !Negated(globs[i])
              && forall j | i < j < |globs| :: !Decides(g, globs[j], relPath)
  {
    hide GlobMeans;
    matched := false;
    for n := 0 to |globs|
      invariant matched <==> exists i | 0 <= i < n ::
                  && Decides(g, globs[i], relPath) && !Negated(globs[i])
                  && forall j | i < j < n :: !Decides(g, globs[j], relPath)
    {
      var glob := globs[n];
      if Negated(glob) {
        var ok := MatchWorkspaceGlob(g, glob[1..], relPath);
        if ok {
          matched := false;
        }
        continue;
      }
      var ok := MatchWorkspaceGlob(g, glob, relPath);
      if ok {
        matched := true;
      }
    }
  }
}
