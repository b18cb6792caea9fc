# Deploys, docs and logs of the Volcano CLI, in Dafny

This project models the parts of the Volcano CLI with the most intricate state, and proves what they promise.

**Is this deploy exactly the commit?** `PackageSource` walks a project and writes each archive path once, first
writer wins: the function's own files, then dependency manifests from the nearest directory out, then shared
libraries. `inputPaths` tells the same from a path alone, by an archive path and a priority. `functionClean` uses
that to decide whether the upload is the commit checked out here. `BlobFile` has the streaming core: blob IDs of
content with its line endings normalised, computed in chunks. `DirectoryReader`, `Scanner` and `Packager` are the
walks and the writer as they run; `Inputs` is the path test; `Prediction` and `PredictionExact` show that the two
agree, and exactly when, with `PredictionLimits` an input where they do not; `DeployCommit` and `FunctionClean` are the
decision; `PackagingMeaning` and `CleanMeaning` tell when a file is packaged, and when a function is clean, from the
files, the rules and what git answers alone; `Soundness` shows what clean is worth. A checkout of the commit has its
own ignore rules and finds the function anew, as in `Ignore` and `Sources`; `CleanCheckout` says exactly when they are
the worktree's.

Some results are not what the code's comments say. A clean function can still differ from the commit. The exact
condition, for whatever rules and function the checkout has, is in `CleanIsTheCommit`, and four inputs show the ways:

- A library in volcano/functions that the commit has and the worktree lost, all of whose files are ignored, replaces
  another library in a checkout (`SoundnessLimits.CleanButNotTheCommit`).
- A .gitignore that git itself ignores keeps a committed file out of the upload, and not out of a checkout's package
  (`CheckoutLimits.StrayIgnoreChangesThePackage`).
- An earlier entrypoint that the commit has, the worktree lost and the .gitignore lists makes a checkout find another
  function (`CheckoutLimits.EarlierEntryChangesTheFunction`).
- A committed manifest that the worktree lost is taken for one whose place is taken when the file there has a better
  place elsewhere (`CheckoutLimits.CoveredAtOnePlaceOnly`).

A manifest whose name, looked up above the function, is that of a file in a shared library, or beside a function that
is one file, can make the prediction wrong; `PredictionExactlyWhen` has the condition, for both kinds of function. And
`safeRelPath` trims a path, so that a tree with "a.md" and " a.md" that differ is published with one of them wrong,
which later syncs may reuse (`TwoFilesOneCleanPath`); the exact condition, over all that was published before, is in
`CompleteExactlyWhen`. The windows `splitLargeBody` makes can be two characters over its limit (`TwoParagraphs`), exactly
when `OverLimitExactlyWhen` says.

**The docs cache, parser and index.** `DocsParse` and `Anchors` are the one-pass Markdown sectioner and its
anchors; `DocsSections` shows that sections tile the document and have distinct ids; `DocsGet` that ids lead back
to their sections, and exactly when. `DocsCache` is the protocol by which snapshots are staged, published, pruned
and discarded, as steps with crashes anywhere; `DocsCacheExact` says when what is live has what it lists;
`DocsSync` is one sync as it runs, which only makes such steps; `DocsService` is readers and the resident index while
a writer is at work. `DocsIndex` and `DocsSearch` are the BM25 index and ranking, and `DocsAnswers` shows that the ids
searches find lead `Get` back to their sections.

**Smaller cores.** `Reconnect` and `DeploymentFollow` are the two log-follow protocols, `WorkspaceGlob` the
matcher for `**`, `PushUrl` git's push-URL rewriting, `EnvFile` the upsert of env files in place, `DeviceLogin` the
poller of RFC 8628. A second upsert of the same variables can change the file again (`BlankLeftAtEnd`), though
never a line that sets one of them.

Code that changes things step by step is modelled by methods with loops, and by classes where the source has
objects with fields; each is proved against a specification function or predicate, and the properties are lemmas
about those. What such a function means is stated a second time without it, from lines, positions, sets and records
(the lemmas called `...Means`, `...ExactlyWhen` and the like). Closures that fill maps during a walk take and return what they fill.

`dafny verify dfyconfig.toml` checks the whole project.

## Model

| member | source | states |
|---|---|---|
| BlobFile.LfWriter.Write | internal/deploycommit/file.go:171-197 | After any write, the output and the CR held back are those of all bytes given so far, however they were split |
| BlobFile.LfWriter.Flush | internal/deploycommit/file.go:200-205 | After the flush the output is the whole input with every CRLF turned to LF |
| BlobFile.TextStats.Write | internal/deploycommit/file.go:116-149 | The counters equal recursive definitions over the whole byte string given so far, across any split into writes |
| BlobFile.TextStats.Binary | internal/deploycommit/file.go:154-163 | Git's own test for binary content, over the whole string |
| BlobFile.BinaryMeans | internal/deploycommit/file.go:105-163 | Which bytes are binary: with a NUL, a CR that no LF follows, or more than one unprintable byte for each 128 printable ones, a final ^Z aside; told from positions in the bytes |
| BlobFile.WriteChunks | internal/deploycommit/file.go:165-205 | Any chunking gives the normalised string, exactly as many bytes shorter as there are CRLFs |
| BlobFile.ToLFShortens | internal/deploycommit/file.go:60-74 | Normalising shortens by the number of CRLFs, so the header length minus crlf is the length of the normalised content |
| BlobFile.NormalizedIsStable | internal/deploycommit/file.go:165-205 | Normalising twice is normalising once, if and only if no CR comes before a CRLF |
| BlobFile.SplitOutsideCRLF | internal/deploycommit/file.go:165-205 | Normalising, and the counts, distribute over a split that does not part a CR from its LF |
| BlobFile.SplitInsideCRLF | internal/deploycommit/file.go:165-205 | And what a split between CR and LF adds |
| BlobFile.HeaderReadsOneWay | internal/deploycommit/file.go:83-94 | Two headed blobs are the same bytes only for the same size and content |
| BlobFile.BlobIDNamesContent | internal/deploycommit/file.go:90-94 | With an injective hash, equal blob IDs mean equal content |
| BlobFile.BlobIDMeans | internal/deploycommit/file.go:83-94 | A blob's ID is the hash of "blob", a space, the size in decimal digits, a NUL and the content |
| BlobFile.LfsPointerMeans | internal/deploycommit/file.go:96-103 | The LFS pointer has three lines: the version, the content's SHA-256, and its size |
| BlobFile.LfBlobID | internal/deploycommit/file.go:60-74 | The hash of the second pass, "" when it fell short or changed |
| BlobFile.Copy | internal/deploycommit/file.go:34-55 | The file recorded has the blob IDs of the content, of its normalised form and of its LFS pointer; with an injective hash a second pass that differs leaves lf empty, never wrong |
| DirectoryReader.Visit | internal/function/reader.go:14-83 | The pruned walk under a path reads exactly the files there that the path test keeps |
| DirectoryReader.ReadDirectory | internal/function/reader.go:14-83 | The walk returns exactly the files keeps accepts, with their content, or fails at the file limit; for any ignore rules |
| DirectoryReader.HiddenSubtree | internal/function/inputs.go:183-196 | An ignored directory hides everything under it from the path test too |
| Scanner.LibrarySegment | internal/function/inputs.go:201-221 | The library a path is in: at the top of volcano/functions, or elsewhere under volcano at the first underscored segment; none without one |
| Scanner.Record | internal/function/scanner.go:174-236 | A library found takes the place of one of the same name; each name is listed once |
| Scanner.Visit | internal/function/scanner.go:174-236 | The walk under a path records exactly the roots there |
| Scanner.FindSharedLibraries | internal/function/scanner.go:174-236 | The libraries listed, in order of their names: one per name, volcano/functions replacing the rest of volcano |
| Sources.DetectDirectoryRuntime | internal/function/scanner.go:145-163 | The regular file in a directory, of those called as an entrypoint is, whose name comes first; none when there is none |
| Sources.ScanSource | internal/function/scanner.go:65-93 | The function an entry of volcano/functions is, or that it is none |
| Sources.OneFunction | internal/function/scanner.go:58-163 | An entry is one function, directly in volcano/functions or in a directory there |
| Sources.FindsMeans | internal/function/scanner.go:58-163 | The function of an entry field by field: a directory's first entrypoint by name with the manifests of its runtime, or a file by its extension; none when underscored |
| Sources.ExtMeans | internal/function/scanner.go:39-42 | The extension is the end of a name from its last dot |
| Scanner.PathTestIsWalk | internal/function/inputs.go:201-221 | sharedLibrary names exactly the one root the walk meets a file under, or none when it meets none |
| Packager.SafeArchivePathReadsBack | internal/function/packager.go:342-358 | Every path given is relative and has no empty, "." or ".." segment, and is what the path written out gives; every such path is given for what it is written as; refused is exactly what is absolute, has a ".." segment, or has nothing but "." and empty ones |
| Packager.SafeArchivePathMeans | internal/function/packager.go:342-358 | What one segment more does to a path: an empty one and "." nothing, ".." makes it unsafe, another is at its end |
| Packager.ArchiveWriter.Add | internal/function/packager.go:224-244 | An archive path is written once, by its first writer; a later one changes nothing |
| Packager.ArchiveWriter.Sources | internal/function/packager.go:248-264 | The archive path of every file that came from disk, by its source |
| Packager.AddFiles | internal/function/packager.go:268-284 | Adds each file at its place, in any map order, losing to what is there |
| Packager.AddDependencyManifests | internal/function/packager.go:286-340 | Manifests from the nearest directory out to the base, each losing to nearer ones |
| Packager.PackageSource | internal/function/packager.go:69-181 | The archive's sources are the declarative selection: own files, over manifests nearest first, over shared libraries |
| PackagingMeaning.PackagedExactlyWhen | internal/function/packager.go:69-138 | Which file is written at an archive path, told from the project's files, the rules and the function alone: among those that can go there, own files before manifests nearest first, before libraries in volcano/functions, before those elsewhere that none there replaces |
| PackagingMeaning.PackageableExactlyWhen | internal/function/packager.go:69-138 | When packaging succeeds: the directories are there with ten thousand kept files at most, or the function's file with a safe entrypoint, and every manifest name is safe |
| PackagingMeaning.LibrariesMean | internal/function/scanner.go:174-236 | Which libraries a project has: those in volcano/functions, and those elsewhere whose name none there has |
| Inputs.Consider | internal/function/inputs.go:108-168 | The closure keeps the first role of least priority seen |
| Inputs.BestIsLeast | internal/function/inputs.go:108-168 | The role kept is one of those a path has, and none is of lower priority |
| Inputs.Classify | internal/function/inputs.go:108-168 | The archive path and priority are those of the best of all the roles the path has; replacedBy only when it has none |
| Inputs.AskInputPath | internal/function/inputs.go:50-102 | Whether a path feeds the function, else what shadows it |
| Inputs.MakeRules | internal/function/inputs.go:50-102 | The rules, with the names of the libraries at the top of volcano/functions |
| PackagingMeaning.AnswerMeans | internal/function/inputs.go:50-102 | The answer for a path with a place: it feeds the function unless the file packaged there has a better place, which then shadows it |
| PackagingMeaning.NoAnswerMeans | internal/function/inputs.go:50-168 | And for one without: no, shadowed by the library in volcano/functions that replaces the one it is in, if any does |
| PackagingMeaning.RolesMean | internal/function/inputs.go:108-221 | The places and priorities of a path, told from the path, the rules, the function and the project's files |
| Prediction.FunctionLayerAt | internal/function/packager.go:69-138 | The function's own files at an archive path are those of the role with priority 0 |
| Prediction.NearestManifest | internal/function/packager.go:286-340 | The manifest packaged at an archive path is the nearest that would be there |
| Prediction.FunctionsLibsAreRoots | internal/function/inputs.go:50-102 | The names that replace are exactly the walk's roots in volcano/functions |
| Prediction.LibraryOfFile | internal/function/scanner.go:174-236 | A file's library is the listed one of its name unless one in volcano/functions replaced it |
| Prediction.LibraryArchivesDistinct | internal/function/inputs.go:140-168 | Kept files of the libraries found never share an archive path |
| Prediction.WrittenIsLeast | internal/function/inputs.go:108-168 | No file that plays at an archive path has lower priority than the one packaging writes, and none ties |
| Prediction.SelectionIsLeastPriority | internal/function/packager.go:69-138 | PackageSource writes a file at an archive path exactly when it is the one of least priority there by classify |
| PredictionExact.PredictionIsExact | internal/function/inputs.go:50-168 | The path-only answer is yes exactly for the files packaging wrote, in every project without a file whose path can be misjudged, under any ignore rules that include the patterns given |
| PredictionExact.PlainNamesApart | internal/function/inputs.go:50-168 | Single-segment manifest names without a leading underscore are apart from libraries and from the function |
| PredictionExact.PlainNamesExact | internal/function/inputs.go:50-168 | With such names the answer is exact in every project |
| PredictionExact.NamesApartOneArchive | internal/function/inputs.go:108-168 | With names apart no file is archived at two paths but the file of a function that is one file, which is at the entrypoint and at its name |
| PredictionExact.PredictionExactlyWhen | internal/function/inputs.go:50-168 | For every function ScanSources finds: exact in every project that has it, under all rules that include the patterns given, if and only if no path can be misjudged, which is told from the patterns, the function, its entrypoint and its manifest names alone |
| PredictionLimits.LibraryManifestIsMisjudged | internal/function/inputs.go:50-168 | A concrete function with a manifest in a library, and a project that leaves out all the built-in patterns do, in which the answer is wrong |
| DeployCommit.LineEndings | internal/deploycommit/deploycommit.go:333-360 | The first of text, crlf, eol and core.autocrlf that says anything decides |
| DeployCommit.StoresMeans | internal/deploycommit/deploycommit.go:281-360 | Which matches attributes allow, from their values: an LFS file by its filter, another by text, else crlf, else eol, else core.autocrlf |
| DeployCommit.PathBatches | internal/deploycommit/function.go:482-494 | Batches are not empty, concatenate to the input, stay under the limit unless a single path, and each is full: the next path would have reached the limit |
| DeployCommit.TakeBatch | internal/deploycommit/function.go:485-489 | How much of the rest goes on one command line: as many paths as stay under the limit, and one at least |
| DeployCommit.FitsMeans | internal/deploycommit/function.go:480-490 | What fits a command line: one path of any length, or more whose text with separators is under 8000 bytes |
| DeployCommit.AttributesAllow | internal/deploycommit/deploycommit.go:281-315 | All matches are stored as committed by their attributes, whatever the batches; fails only when git does and was asked |
| DeployCommit.Differs | internal/deploycommit/deploycommit.go:176-213 | No difference exactly when every upload is a committed file with its mode and content and none committed is lacking; fails exactly when attributes are needed and cannot be read |
| DeployCommit.HasContentMeans | internal/deploycommit/function.go:303-315 | When a file compares as committed: the blob is its raw one; or its normalised one, or else its LFS pointer's, and attributes allow it |
| DeployCommit.NoDifferenceMeans | internal/deploycommit/deploycommit.go:176-238 | What no difference is, from modes, paths and blobs: every upload is a committed regular file under the directory with its content and mode, and every committed file there was uploaded or is left out, named from the directory |
| DeployCommit.Lacks | internal/deploycommit/deploycommit.go:227-238 | Whether a committed file under the directory, not left out by rule, was not uploaded |
| FunctionClean.Source.Staged | internal/deploycommit/function.go:417-456 | The paths the index has otherwise than the commit, or a failure; git is asked for the index once at most, and the answer kept |
| FunctionClean.Source.Untracked | internal/deploycommit/function.go:397-411 | What git lists as untracked, or a failure; git is asked once at most, and the answer kept |
| FunctionClean.Source.UntrackedUnder | internal/deploycommit/function.go:375-392 | Yes exactly when one of the paths is untracked or lies in, or holds, something untracked; a failure exactly when git had to be asked and could not |
| FunctionClean.Source.WholeRepositoryClean | internal/deploycommit/function.go:259-301 | Whether disk and index are the commit throughout; the answer is kept, a failure as no |
| FunctionClean.Source.FunctionClean | internal/deploycommit/function.go:88-182 | Clean exactly when a declarative list of conditions on commit, index, disk and upload holds |
| FunctionClean.Source.FeedsNothingStaged | internal/deploycommit/function.go:147-161 | No submodule and nothing staged feeds the function |
| FunctionClean.StagedMeans | internal/deploycommit/function.go:417-456 | A path is not staged if and only if the index records there are what the commit holds: one at stage 0 with its mode and blob, one with the submodule's commit, or none |
| CleanMeaning.CleanExactlyWhen | internal/deploycommit/function.go:88-254 | When a function is clean, told from the commit, git's answers, the disk and the inputs alone: inputs in place, nothing untracked around the roots, what feeds it in the index as committed and no submodule, every committed input as committed, and what the commit lacks read once, ignored by git, in a repository that is the commit throughout |
| CleanMeaning.CleanIndexIsTheCommit | internal/deploycommit/function.go:147-161 | At every path that feeds a clean function the index has exactly the commit's mode and blob at stage 0, or nothing |
| CleanMeaning.RepositoryMeans | internal/deploycommit/function.go:259-301 | The whole repository is clean if and only if it has no submodule, nothing is untracked, the index is the commit, and every tracked file is on disk with its kind, mode and content |
| FunctionClean.PlaceInputs | internal/deploycommit/function.go:88-140 | Where the files, paths and roots are in the repository, and which are not committed |
| FunctionClean.Ignored | internal/deploycommit/function.go:461-478 | Which of the paths git ignores, whatever the batches |
| FunctionClean.AllPass | internal/deploycommit/function.go:207-254 | The loop over files gathers exactly the matches whose attributes decide |
| FunctionClean.GatheredPass | internal/deploycommit/function.go:207-254 | Once the matches gathered are allowed, every check passes, and only then |
| Soundness.CheckoutIsCommit | internal/deploycommit/function.go:77-86 | A checkout is a tree holding each committed file and nothing else |
| Soundness.UploadedIsCommitted | internal/deploycommit/function.go:88-254 | Every upload of a clean function is ignored by git, or committed with matching content |
| Soundness.PackagingDescribes | internal/function/packager.go:143-170 | What PackageSource answers, handed on as SetCommit does, describes the upload it made |
| Soundness.FedIsOnDisk | internal/deploycommit/function.go:207-254 | Every committed file that feeds a clean function is on disk as a regular file |
| Soundness.ContentIsStored | internal/deploycommit/function.go:305-315 | Content compares as the commit's exactly when git stores it as what the commit holds: raw, with line endings converted, or as an LFS pointer; where the last two are the same bytes only the line endings count |
| Soundness.UploadsHoldTheCommit | internal/deploycommit/function.go:88-254 | So every committed upload of a clean function holds what the commit does, as git stores it |
| Soundness.CleanIsTheCommit | internal/deploycommit/function.go:88-254 | Whatever function and ignore rules a checkout has: packaging it writes every committed upload where it was, and nothing where the upload has nothing, if and only if no committed upload loses its role, and none its place to a committed file that gains a role or was covered at one of its places only; without uploads that git ignores the packages are then the same |
| Soundness.ApartNoneUncovered | internal/deploycommit/function.go:88-254 | With manifest names apart no file is covered at one place only |
| Soundness.CleanBySameRules | internal/deploycommit/function.go:88-254 | With the same function and rules, and manifest names apart, that agreement is if and only if the checkout replaces, and restores, no library the upload has files of |
| Soundness.CleanWithSameLibraries | internal/deploycommit/function.go:88-254 | With the same function, rules and library names in volcano/functions, and manifest names apart, clean means that agreement, each committed file with the commit's content |
| CleanCheckout.IgnoreFileCommitted | internal/deploycommit/function.go:109-140 | The root .gitignore of a clean function is on disk when it is committed, with the committed content unless it is a symlink there, and is ignored by git itself when the commit lacks it |
| CleanCheckout.IgnoreRulesExactlyWhen | internal/ignore/matcher.go:45-100 | A checkout has the worktree's ignore rules, whatever patterns there are and whatever a .gitignore may mean, if and only if the worktree has no .gitignore that the commit lacks |
| CleanCheckout.FunctionExactlyWhen | internal/function/scanner.go:58-163 | A checkout has the worktree's function if and only if the commit holds its file and, in its directory, no entrypoint of an earlier name |
| CleanCheckout.EarlierEntryIsIgnored | internal/deploycommit/function.go:207-254 | Such an entrypoint of a clean function is one the ignore rules leave out |
| CleanCheckout.CheckoutDeploysTheSame | internal/deploycommit/function.go:77-182 | Both together, for a worktree and a checkout whose rules and function come from their own files |
| SoundnessLimits.RestoredOnlyBySymlink | internal/deploycommit/function.go:88-254 | With all uploads committed, a library replaced in the worktree alone is missed only when the commit has a symlink in its place |
| SoundnessLimits.CleanButNotTheCommit | internal/deploycommit/function.go:88-254 | A concrete clean function whose checkout is packaged otherwise: the worktree lost a library that holds only a log file, which no package includes |
| CheckoutLimits.StrayIgnoreChangesThePackage | internal/deploycommit/function.go:109-140 | Another, for any .gitignore that lists a library's file, is not committed and is ignored by git itself: a checkout packages that file; function and libraries are the same |
| CheckoutLimits.EarlierEntryChangesTheFunction | internal/deploycommit/function.go:207-254 | And one, for any committed .gitignore that lists an earlier entrypoint, which the worktree lost: a checkout finds another function |
| CheckoutLimits.CoveredAtOnePlaceOnly | internal/deploycommit/function.go:207-254 | And one with a nested manifest name: function, rules and libraries are the same, and the prediction is exact, yet a committed manifest that the worktree lacks takes an upload's place |
| Numerals.DecimalInjective | internal/docs/parse.go:324-336 | Different numbers have different numerals |
| Anchors.Itoa | internal/docs/parse.go:324-336 | The 20-byte buffer holds any int, and the result is its decimal numeral |
| Anchors.Slugify | internal/docs/parse.go:294-303 | Halving hyphens until none are double gives every run of hyphens as one |
| Anchors.HalvingCollapses | internal/docs/parse.go:299-301 | One ReplaceAll keeps what the runs collapse to |
| Anchors.SlugIsSlug | internal/docs/parse.go:294-303 | A slug is lower-case letters, digits and single hyphens, none at an end |
| Anchors.SlugIsWords | internal/docs/parse.go:294-303 | A slug is the words of the heading, of letters and digits between spaces and hyphens, hyphenated |
| Anchors.CandidatesDiffer | internal/docs/parse.go:311-322 | The candidates of one heading are pairwise different |
| Anchors.FirstFreeIsFree | internal/docs/parse.go:311-322 | There is a first candidate not used, since only finitely many are |
| Anchors.UniqueAnchor | internal/docs/parse.go:311-322 | The loop ends, at the first candidate not used, which it then marks used |
| Anchors.AnchorIsSlug | internal/docs/parse.go:311-322 | An anchor is not empty, has no "#" and was not used |
| Anchors.AnchorMeans | internal/docs/parse.go:311-322 | An anchor is the slug, "section" for an empty one, or that numbered by the first number that is free |
| DocsParse.FenceOpenExactly | internal/docs/parse.go:140-154 | A fence is open at a line if and only if an earlier line after the front matter begins it outside any fence and no line since closes it |
| DocsParse.FenceDelimMeans | internal/docs/parse.go:42-58 | A line begins a fence exactly when, after blanks, it starts with a whole run of three or more backticks or tildes |
| DocsParse.FenceCloseMeans | internal/docs/parse.go:64-71 | It closes one exactly when the run is of the same character and as long or longer, with only blanks after, as in section 4.5 of CommonMark |
| DocsParse.HeadingsFindsAll | internal/docs/parse.go:140-158 | The headings are exactly the ATX lines after the front matter and outside fences |
| DocsParse.HeadingMeans | internal/docs/parse.go:140-160 | Which lines are headings: ATX lines after the front matter that begin no fence and lie in none |
| DocsParse.FrontMatterMeans | internal/docs/parse.go:208-224 | Front matter begins and ends with a rule and has none between |
| DocsParse.TitleFieldMeans | internal/docs/parse.go:208-224 | The last field called title gives its title |
| DocsParse.SplitFrontMatter | internal/docs/parse.go:208-224 | The lines of a leading block between two rules, and the last title it gives; none when it is not closed |
| DocsParse.DeriveTitle | internal/docs/parse.go:255-276 | The first level-1 heading outside fences, else the file name |
| DocsParse.DocTitle | internal/docs/parse.go:247-253 | The front matter's title, else the derived one, without control characters |
| DocsParse.Push | internal/docs/parse.go:165-172 | The breadcrumb stack after a heading, slot by slot |
| DocsParse.ReadLine | internal/docs/parse.go:140-188 | One line keeps the fence state and the state after the headings so far |
| DocsParse.ParseLines | internal/docs/parse.go:98-191 | One pass gives the sections the headings cut the lines into |
| DocsSections.ParseDoc | internal/docs/parse.go:85-191 | The whole of ParseDoc, from the bytes |
| DocsSections.SectionsTile | internal/docs/parse.go:85-191 | Sections are in order, each starts on the line after the one before ends, the last ends on the last line, and only blank lines before the first heading are left out; each body is its lines |
| DocsSections.HeadingsStartSections | internal/docs/parse.go:140-188 | A line starts a section exactly when it is a heading, so never one inside a fence |
| DocsSections.FencedStartsNothing | internal/docs/parse.go:140-158 | No line from one that begins a fence to the first that closes it starts a section |
| DocsSections.SectionSpan | internal/docs/parse.go:117-188 | Level, text, breadcrumb, anchor and lines of each section, from its heading |
| DocsSections.BreadcrumbSlot | internal/docs/parse.go:165-176 | Slot j is the last heading of level at most j+1 when that is its level, else empty |
| DocsSections.PathEndsWithHeading | internal/docs/parse.go:165-188 | The heading path of a section ends with its own heading |
| DocsSections.AnchorsDiffer | internal/docs/parse.go:178-186 | Anchors of a document are not empty, "#"-free and pairwise different, whatever the headings |
| DocsSections.IdsDiffer | internal/docs/parse.go:29-34 | No two sections of a document have the same id |
| DocsGet.Get | internal/docs/service.go:285-329 | A document by its path, cleaned, or the section with that anchor, or not found, or an invalid id when the path is empty or refused; one of them always |
| DocsGet.TitleAgrees | internal/docs/service.go:303-326 | The title Get shows is the one the sections carry, final newline or not |
| DocsGet.SplitsBack | internal/docs/service.go:331-337 | When an id splits into the path and anchor it was made of |
| DocsGet.IdLeadsBack | internal/docs/service.go:285-337 | From any snapshot that holds its document, Get of a section's id returns that section if and only if the path is not empty, starts with no space and has no "#" |
| DocsGet.NothingGot | internal/docs/service.go:285-329 | When Get returns nothing: an invalid id when the path is blank or refused, not found without the document or a section with the anchor |
| DocsGet.SplitMeans | internal/docs/service.go:331-337 | An id, trimmed, is a path without "#" and what follows the first one |
| DocsGet.DocumentGot | internal/docs/service.go:285-313 | What Get returns for a document, field by field: the content of its file, without an anchor and line bounds |
| DocsGet.SectionGot | internal/docs/service.go:314-329 | And for an anchor: the path, anchor, heading path and lines of a section, and as content those lines of the file without the newlines at their end |
| DocsGet.IdGetsItsLines | internal/docs/service.go:285-337 | What the id of a section gets has its path, anchor, heading path and lines, and its content is those lines |
| DocsGet.PreambleIdIsDocument | internal/docs/service.go:285-337 | The id of a preamble gets the whole document if and only if the path is also trimmed |
| DocsCache.StepKeepsInv | internal/docs/cache.go:200-307 | Every step of a writer, a crash among them, keeps the pointer, the published snapshots and the staged one right, for any listings |
| DocsCache.FileStepKeepsWriter | internal/docs/cache.go:211-236 | A file staged, reused or downloaded, is there once finished, with its listed hash where the listings are sound |
| DocsCache.PointerIsPublished | internal/docs/cache.go:240-266 | After any run current.json names a snapshot as it was published, with a whole manifest and every listed file, each with its listed hash where the listings are sound |
| DocsCacheExact.CompleteExactlyWhen | internal/docs/cache.go:211-249 | For any listings a run can publish: after every run that publishes them the live snapshot has what it lists if and only if no entry shares its clean path with another hash, in the last listing or in one that what is listed there may be reused from, listing by listing |
| DocsCacheExact.TwoFilesOneCleanPath | internal/docs/cache.go:224-236 | The failing input: "a.md" and " a.md" that differ; a later tree that has "a.md" alone can still go wrong |
| DocsCacheExact.OneHashEachIsSound | internal/docs/cache.go:224-236 | Listings that each have one hash for a clean path are sound |
| DocsCacheExact.PublishableIsServable | internal/docs/sync.go:116-133 | Only listings whose paths are accepted and whose hashes have content are published |
| DocsCache.UnpublishedSyncChangesNothing | internal/docs/sync.go:65-173 | Until the pointer swings, failures, crashes, discarding, pruning and touching leave what readers see as it was |
| DocsCache.SwingPublishes | internal/docs/cache.go:240-249 | The swing makes live exactly the commit and files of the sync, and the next listing published |
| DocsCache.HistoryGrows | internal/docs/cache.go:200-307 | A published snapshot is never published again as something else |
| DocsCache.CrashAllowsSync | internal/docs/cache.go:200-307 | A crash leaves the disk as it is, and a sync can start after it |
| DocsSync.LiveHas | internal/docs/cache.go:211-221 | Whatever the live snapshot lists can be reused from it |
| DocsSync.Touch | internal/docs/cache.go:296-307 | Refreshes the check time, or fails when a write does, and changes nothing else |
| DocsSync.WriteFile | internal/docs/cache.go:224-236 | Writes a staged file whole, or fails with it still to be done; with a disk that works, fails exactly for a path that is refused |
| DocsSync.CopyFrom | internal/docs/cache.go:211-221 | Reuses a live file of the same hash; with a disk that works it never fails |
| DocsSync.Partition | internal/docs/sync.go:116-130 | Each file is reused or to be downloaded, once; with a disk that works, downloaded are exactly those that are new or changed, or all with force |
| DocsSync.Download | internal/docs/sync.go:270-311 | Workers in any order, eight at a time: every file downloaded and right, or a failure after which none starts; it succeeds when the disk works and every file can be fetched |
| DocsSync.PrevShas | internal/docs/sync.go:91-96 | The hash each path of the previous manifest had |
| DocsSync.CountRemoved | internal/docs/sync.go:142-150 | How many paths of the previous snapshot are gone |
| DocsSync.SwingAndPrune | internal/docs/cache.go:240-292 | After publishing, the new snapshot stays live, and with a disk that works exactly the old ones are gone |
| DocsSync.Sync | internal/docs/sync.go:65-173 | Every disk state passed through is a step of the protocol; an unchanged commit only has its check time refreshed; else it ends with the new commit live and all files counted once, or with what readers saw before; it succeeds when the disk works and the server has what is new or changed, and then leaves no old snapshot; nor, failing, one staged in vain |
| DocsSync.ReportMeans | internal/docs/sync.go:116-173 | The counts of a sync that published: added are the files under new paths, removed the paths gone, reused those the previous snapshot had as they are |
| DocsService.ReadsAsPublished | internal/docs/cache.go:137-154 | What is read later of a published snapshot is what it was published with, or an error |
| DocsService.ReadSections | internal/docs/service.go:147-165 | A read that races syncs gives the sections of the one snapshot that was live when it began, or an error; never an error while that stays live |
| DocsService.SectionsMean | internal/docs/service.go:147-165 | The sections read are those of every listed document, concatenated in manifest order |
| DocsService.NeverBack | internal/docs/cache.go:200-266 | A snapshot that is no longer the live one never is again |
| DocsService.Service.ResolveIndex | internal/docs/service.go:181-233 | Every index returned is that of a snapshot live at some moment of the call; the resident one, unbuilt, exactly when its generation is the live one; no cache, or three other snapshots published meanwhile, are all that makes it fail |
| DocsService.Service.Build | internal/docs/service.go:199-232 | Three attempts and no more: it fails only after the pointer moved three times or is gone, and reads no more than three snapshots can hold; one build is installed at most |
| DocsAnswers.Search | internal/docs/service.go:168-174 | Every list of results is that of the ranking of one snapshot live at some moment of the call; it fails only without a cache or after three other snapshots were published |
| DocsAnswers.Get | internal/docs/service.go:285-329 | What Get returns is what the snapshot opened had, or not found once others were published; always what it had while it stays live |
| DocsAnswers.ResultLeadsBack | internal/docs/service.go:168-337 | Every result is of a listed document, and Get of its id from the snapshot searched is its section, or the document for a preamble, if and only if ids of that path can be split |
| DocsAnswers.SectionIsFound | internal/docs/service.go:147-174 | A section of any listed document is among the results when one of its windows holds a term of the query and it is in the topic, unless the limit leaves it out for better ones |
| DocsAnswers.SearchThenGet | internal/docs/service.go:168-337 | End to end over a run of the cache: an id of a result, taken to Get while that snapshot is live, gives the section found |
| DocsIndex.SplitLargeBody | internal/docs/search.go:225-249 | The windows are those of the specification, whose properties follow |
| DocsIndex.WindowsAreRuns | internal/docs/search.go:225-249 | Windows are whole paragraphs, in order and none but blank ones left out, as many in each as the limit allows; a window over it by more than a break is one paragraph |
| DocsIndex.OverLimitExactlyWhen | internal/docs/search.go:225-249 | A window is over the limit if and only if the body has only breaks, or a paragraph is over it, or is joined to a window that it makes over it by the break, which is not counted |
| DocsIndex.TwoParagraphs | internal/docs/search.go:225-249 | Two paragraphs of a thousand characters are one window of two thousand and two |
| DocsIndex.WindowsKeepText | internal/docs/search.go:225-249 | No text of a section is lost or repeated but for line breaks |
| DocsIndex.ParagraphsKeepText | internal/docs/search.go:229-229 | Splitting into paragraphs keeps the text |
| DocsIndex.ParagraphsMeans | internal/docs/search.go:229-229 | Paragraphs end at the first blank line after they begin |
| DocsIndex.BuildChunk | internal/docs/search.go:193-215 | A chunk's frequencies weigh body, title, headings and path; its length is their full weight, and its technical tokens are those of the four |
| DocsIndex.ChunkMeans | internal/docs/search.go:193-215 | A term weighs one for each time in the body, three in title or headings, two in the path; the length is the weight of all tokens |
| DocsIndex.CountTerms | internal/docs/search.go:78-87 | Each term of a chunk is counted once, in any order |
| DocsIndex.NewIndex | internal/docs/search.go:68-92 | df counts the chunks holding each term, avgdl is the average length, and the chunks are those of the sections' windows, in order; so it is the one index of the sections |
| DocsIndex.OneIndex | internal/docs/search.go:68-92 | Sections have one index, so they and a query have one ranking |
| DocsIndex.ChunksMean | internal/docs/search.go:68-75 | The chunks are those of every window of every section, section after section |
| DocsIndex.ChunksCover | internal/docs/search.go:68-75 | Each section has a chunk and there is no chunk of anything else |
| DocsSearch.Dedupe | internal/docs/search.go:311-322 | In place, the first occurrences, in order, although they share the array they are read from |
| DocsSearch.FirstsDistinct | internal/docs/search.go:311-322 | They are distinct, and a list of distinct elements stays |
| DocsSearch.ScoreChunk | internal/docs/search.go:109-139 | The score of a chunk, when it is in the topic and scores; no division by zero |
| DocsSearch.ScoresWhenMatches | internal/docs/search.go:114-129 | A chunk scores exactly when it holds a term of the query |
| DocsSearch.TermScoreMeans | internal/docs/search.go:114-126 | The BM25 weight of a term in a chunk, from its frequencies and lengths |
| DocsSearch.RarerWeighsMore | internal/docs/search.go:186-191 | A term that fewer chunks hold weighs more |
| DocsSearch.ScoreMeans | internal/docs/search.go:114-143 | The terms' weights and the technical bonus, doubled for the phrase of several terms and half more in the command line's topic |
| DocsSearch.Collect | internal/docs/search.go:107-163 | The best chunk of each section id, the first among equals |
| DocsSearch.RankedIsBest | internal/docs/search.go:107-163 | A result is that of the chunk of its section that no other outscores and none before equals |
| DocsSearch.OneOrder | internal/docs/search.go:171-176 | Results in order by score and then id are determined by which they are |
| DocsSearch.RankedInOrder | internal/docs/search.go:171-176 | A ranking goes by score, highest first, and by id among equals, each id once |
| DocsSearch.OneRanking | internal/docs/search.go:165-176 | There is one ranking, so neither map order nor the sort changes the result |
| DocsSearch.Search | internal/docs/search.go:95-184 | The first limit results of the ranking, numbered from 1 |
| DocsSearch.TopMeans | internal/docs/search.go:177-183 | With a positive limit that many results are returned or all when there are fewer, the kth being the kth of the ranking with rank k + 1; all left out come after |
| DocsSearch.FoundWhenMatching | internal/docs/search.go:95-184 | A section is found exactly when it is in the topic and one of its chunks holds a term |
| Reconnect.ReconnectingStream.Next | internal/logfollow/follow.go:207-235 | The event returned and what is then still to be delivered are what was still to be delivered before |
| Reconnect.Follow | internal/logfollow/follow.go:54-80 | The events handed on are those the drops let through |
| Reconnect.DeliversPrefix | internal/logfollow/follow.go:207-235 | With an id of its own on every event, none is lost or repeated whatever drops |
| Reconnect.RepeatsAfterDrop | internal/logfollow/follow.go:224-232 | Without, a single drop repeats events |
| Reconnect.ResumesAfterID | internal/logfollow/follow.go:207-235 | A stream that drops goes on after the first event with the id that the last event delivered with an id has |
| Reconnect.ResumesAtStart | internal/logfollow/follow.go:207-235 | And at the start of the log when none delivered has an id |
| Reconnect.PrefixWhenFresh | internal/logfollow/follow.go:207-235 | What is delivered is always a prefix of the log if and only if every event has an id no earlier one has |
| DeploymentFollow.RunKeepsInv | internal/logfollow/follow.go:86-186 | Over all interleavings the counts of results sent and received fit where the loop and the goroutine are |
| DeploymentFollow.ResultSentOnce | internal/logfollow/follow.go:93-116 | The stream's result is sent once at most and received once at most |
| DeploymentFollow.NeverWaitsOnFinishedStream | internal/logfollow/follow.go:120-179 | Where the loop waits for the stream, a result is there or the canceled goroutine still is |
| DeploymentFollow.NoGoroutineLeft | internal/logfollow/follow.go:86-179 | Once the function returns the goroutine is gone |
| DeploymentFollow.CatchUpGetsPrinted | internal/logfollow/follow.go:120-134 | catchUp runs once at most, only after the deployment was said to be done, with exactly the ids printed |
| DeploymentFollow.CatchUpRuns | internal/logfollow/follow.go:120-134 | When there is a catchUp and the deployment was said to be done, it runs, with the ids of all events read, unless the stream failed |
| DeploymentFollow.OutcomeMeans | internal/logfollow/follow.go:86-186 | What the function returns over all interleavings: the stream's error, which a broken stream not canceled always is; the check's error if there was one; done if and only if the check said so; else canceled. All events read are printed, in order |
| WorkspaceGlob.Matches | internal/frontend/workspace.go:183-209 | True exactly when each ** can be replaced by zero or more segments so that pattern and path match segment by segment |
| WorkspaceGlob.FirstSegment | internal/frontend/workspace.go:183-209 | That meaning, one segment at a time |
| WorkspaceGlob.MatchWorkspaceGlob | internal/frontend/workspace.go:171-177 | A glob for the root itself matches nothing |
| WorkspaceGlob.GlobExactlyWhen | internal/frontend/workspace.go:171-209 | When a glob matches, from the cleaned glob and the path alone: runs of segments for each segment of the pattern |
| WorkspaceGlob.WorkspaceContains | internal/frontend/workspace.go:150-164 | The last glob that matches decides |
| PushUrl.RecordReadsBack | internal/localgit/localgit.go:281-313 | A record reads back as its rule, whatever dots, colons and spaces the base has |
| PushUrl.RuleMeans | internal/localgit/localgit.go:281-313 | A record is a rule if and only if it is written as one; any other is none |
| PushUrl.Collect | internal/localgit/localgit.go:281-313 | The maps hold the first rule of each prefix |
| PushUrl.LongestPrefixRewrite | internal/localgit/localgit.go:329-337 | The longest matching prefix, in any map order |
| PushUrl.RewritePushURL | internal/localgit/localgit.go:264-320 | The earliest rule with the longest matching prefix; any matching pushInsteadOf before every insteadOf |
| PushUrl.OneDestination | internal/localgit/localgit.go:264-337 | The configuration alone decides the result |
| PushUrl.FollowsMeans | internal/localgit/localgit.go:264-337 | Where a push goes, from prefixes and bases: of the rules that match, pushInsteadOf ones or when there are none insteadOf ones, the earliest of the longest prefix; nothing is rewritten without |
| EnvFile.KeyIsWellFormed | internal/envfile/upsert.go:86-100 | Which keys their own line sets: trimmed, without "=", no comment and not exported |
| EnvFile.KeyMeans | internal/envfile/upsert.go:86-100 | Which key a line sets, from its text: what is before the first "=", after an "export" if any, trimmed; none for a comment |
| EnvFile.Rewrite | internal/envfile/upsert.go:40-51 | The rewrite in place, although kept shares the array of lines |
| EnvFile.UpsertLines | internal/envfile/upsert.go:39-56 | All variables, each in place or appended |
| EnvFile.SetAllMeans | internal/envfile/upsert.go:39-56 | One variable more: key=value takes the place of the first line that sets its key, later ones go, and without any it is put at the end |
| EnvFile.Upsert | internal/envfile/upsert.go:28-65 | What is written, from what was there |
| EnvFile.TextMeans | internal/envfile/upsert.go:28-65 | The file written is the lines with the variables set, joined, and a line break, whatever breaks ended the file; the header's lines for an empty one |
| EnvFile.KeysSetOnce | internal/envfile/upsert.go:39-56 | Each key ends with exactly one line, carrying its value |
| EnvFile.OthersStay | internal/envfile/upsert.go:39-56 | Every other line stays, in order |
| EnvFile.SetTwice | internal/envfile/upsert.go:39-56 | Setting the same variables again changes no line |
| EnvFile.FileSetTwice | internal/envfile/upsert.go:28-65 | A second run changes the file if and only if, before the first, every variable was set and the lines, without later copies of their keys, were more than one and ended with a blank one |
| EnvFile.BlankLeftAtEnd | internal/envfile/upsert.go:33-56 | Two copies of a key with a blank line between leave such a file |
| DeviceLogin.ExchangeToken | internal/auth/auth.go:664-677 | At most three attempts, tried again only after a network error or a server error |
| DeviceLogin.DevicePoller.Poll | internal/auth/auth.go:681-720 | One poll: what it ends the login with, else the failures and the interval after it |
| DeviceLogin.FailuresInARow | internal/auth/auth.go:681-690 | The counter is the number of unanswered polls in a row |
| DeviceLogin.OutcomeMeans | internal/auth/auth.go:664-720 | What a login ends with: the token of the exchange after retried failures only, its failure, the code of an error, or a failed poll when the last three went unanswered |
| DeviceLogin.SlowDownsMean | internal/auth/auth.go:713-716 | The number of answers without a token that say slow_down |
| DeviceLogin.EndsWhenOutcome | internal/auth/auth.go:681-720 | A poll ends the login exactly at a token, an error other than pending or slow_down, or the third failure in a row |
| DeviceLogin.Wait | internal/auth/auth.go:611-648 | Over every response sequence polling ends at the first poll that ends the login, and the wait before each is the start plus five seconds for every slow_down so far |

## Left out

- Real SHA-1 and SHA-256, gzip and tar, git subprocesses, HTTP and JSON: hashes are functions, injective where a property needs it; what git, the disk and the server answer is given.
- The meaning of a .gitignore: any function of its content that line endings do not change. One that is a symlink, on disk or in the commit, and one kept in Git LFS.
- Symlink resolution: paths behind a symlink are not in a tree, and whether a path is reached through none is given.
- Failing lstat and file reads count as absence; git's check-attr works throughout or not at all; int64 overflow of sizes does not occur.
- Wording of errors, JSON output, file modes of the cache, the order of files in an archive.
- Submodules are empty in the checkout a clean function is compared with, and the file limit of packaging is not applied to it.
- Recognising an ATX heading in a line, Unicode lower case and case folding, YAML unquoting, removing control characters and making a title of a file name, splitting text into tokens, snippets, path.Match and path.Clean: given functions.
- Two docs writers at once; a server that sends content other than it listed.
- Size limits and the enumeration of a docs source, by tree or by directory; CacheState, List, staleness.
- Contexts and timeouts other than as an end of input; Windows path separators.
- CRUD services, local mode, terminal output and the generated API client: one remote call or small tables each.
- Scanner.FindSharedLibraries: a plain file at volcano/functions is not modelled, since no function can then be packaged; Go's walk would skip the rest of its directory.
- DocsSync.Download: an entry listed twice with the same hash has one worker.
- DocsSync.Sync: which steps fail, and which old snapshots are old enough to prune, is given; a failing reuse counts as a failing write.
- DocsService.Service.ResolveIndex: one call at a time on a service, as requests are processed; whether the sync that makes a missing cache succeeds is given.
- DocsIndex.SplitLargeBody: lengths count characters where the code counts bytes.
- DocsAnswers.Get: whether the sync that makes a missing cache succeeds is given.
- Sources.ScanSource: the functions of a project are not listed, sorted or named together; a runtime is its entrypoint and its manifests.
- DocsSearch.Search: scores are real numbers and the logarithm is any function positive above 1.
- DeviceLogin.Wait: the code's expiry and cancellation are the end of the answers; reading the account's email afterwards is left out.
- Reconnect.Follow: a reader that is canceled or cannot reopen the stream is one that gets no more reads.
