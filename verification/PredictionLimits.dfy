/** A function the path-only prediction is not exact for, under the patterns of every project. */
module PredictionLimits {
  import opened Wrappers
  import opened Strings
  import opened Worktree
  import opened DirectoryReader
  import opened Scanner
  import opened Packager
  import opened Ignore
  import opened Inputs
  import opened Prediction
  import opened PredictionExact
  import opened SoundnessLimits

  const NESTED: Path := ["volcano", "_l", "r"]

  /** A function in a directory, with a manifest that is looked up in a library. */
  function LibraryManifestInfo(): SourceInfo {
    SourceInfo(["volcano", "functions", "f", "main.py"], true, "main.py", ["volcano/_l/r"])
  }

  lemma LibraryManifestNames()
    ensures Scanned(LibraryManifestInfo()) && LibraryManifestInfo().Dir() == ["volcano", "functions", "f"]
    ensures SafeManifests(LibraryManifestInfo().manifests) == [NESTED]
  {
    hide SafeArchivePath;
    assert SafePath(NESTED) && Join(NESTED, "/") == "volcano/_l/r" by {
      assert NESTED[1..] == ["_l", "r"] && ["_l", "r"][1..] == ["r"];
      assert Join(["r"], "/") == "r" && Join(["_l", "r"], "/") == "_l/r";
    }
    SafeArchivePathReadsBack("", NESTED);
    assert SafeManifests([]) == [] && ["volcano/_l/r"][1..] == [];
  }

  /** The built-in patterns keep the file in its library. */
  lemma NestedIsKept()
    ensures SharedLibrary(NESTED) == Some(LibraryRef(["_l"], ["volcano", "_l"])) && KeptInLibrary(BuiltIn(), NESTED)
  {
    hide IgnoredName;
    assert NESTED[1] != FUNCTIONS[1] && FirstUnderscored(NESTED, 1) == 1;
    assert NESTED[1..2] == ["_l"] && NESTED[..2] == ["volcano", "_l"] && NESTED[0..] == NESTED;
    PlainName("volcano");
    PlainName("_l");
    PlainName("r");
    assert forall i | 0 <= i < |NESTED| :: NESTED[i] in ["volcano", "_l", "r"];
  }

  lemma NestedIsMisjudged()
    ensures Misjudged(BuiltIn(), LibraryManifestInfo(), NESTED)
    ensures TakenInLibrary(BuiltIn(), LibraryManifestInfo(), NESTED) && ManifestAbove(LibraryManifestInfo(), NESTED)
  {
    hide BuiltIn, KeptInLibrary, KeptInFunction, SharedLibrary, ManifestAbove, ArchivedAs;
    NestedIsKept();
    LibraryManifestNames();
    NestedAbove();
    NestedArchive();
  }

  lemma NestedAbove()
    ensures ManifestAbove(LibraryManifestInfo(), NESTED)
  {
    LibraryManifestNames();
    hide SafeManifests;
    assert [] + NESTED == NESTED && [] < LibraryManifestInfo().Dir();
  }

  /** The function's file is no manifest, and is not where one would be in the function's directory. */
  lemma NestedArchive()
    ensures !ArchivedAs(LibraryManifestInfo(), LibraryManifestInfo().path, ["_l", "r"])
    ensures SharedLibrary(NESTED).Some? && LibraryArchive(NESTED) == ["_l", "r"]
    ensures !(LibraryManifestInfo().path <= LibraryManifestInfo().Dir() + NESTED)
  {
    NestedIsKept();
    LibraryManifestNames();
    hide SharedLibrary, SafeManifests;
    var info := LibraryManifestInfo();
    assert ["_l"] + NESTED[2..] == ["_l", "r"];
    assert (info.Dir() + NESTED)[3] == "volcano" && |info.path[3]| == 7 && info.path[3][0] == 'm';
    forall d, n | ManifestPlace(info.Dir(), [NESTED], d, n, ["_l", "r"])
      ensures info.path != d + n
    {
      assert (d + n)[|d + n| - 1] == NESTED[2] && |NESTED[2]| == 1;
    }
  }

  /**
   For a function with a manifest in a library the prediction can be wrong: a file of the same path in the function's
   own directory takes the manifest's place, and the library still writes the manifest at another.
   */
  lemma LibraryManifestIsMisjudged() returns (x: Project)
    ensures Misjudged(BuiltIn(), LibraryManifestInfo(), NESTED)
    ensures x.Valid() && x.info == LibraryManifestInfo() && IsFile(x.tree, x.info.path)
    ensures Includes(x.matcher, BuiltIn())
    ensures !Exact(x)
  {
    hide BuiltIn, Exact, TakenInLibrary, ManifestAbove, Misjudged, Worktree.Valid, Lists, LibrariesByName, Includes;
    LibraryManifestNames();
    NestedIsMisjudged();
    hide LibraryManifestInfo;
    x := TakenInLibraryFails(BuiltIn(), LibraryManifestInfo(), NESTED);
  }
}
