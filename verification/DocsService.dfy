/**
 Readers of the docs cache while a writer is at work (openSnapshot, manifest and readFile in
 internal/docs/cache.go; sections and resolveIndex in internal/docs/service.go). Every read of a file is a
 moment of its own, and any number of the writer's steps may come between two moments.
 */
module DocsService {
  import opened Wrappers
  import opened Collections
  import opened Anchors
  import opened DocsParse
  import opened DocsSections
  import opened DocsCache

  /** The cache at each moment. */
  type World = nat -> State

  ghost predicate Evolves(env: Env, world: World) {
    Inv(env, world(0)) && forall i: nat :: Reaches(env, world(i), world(i + 1))
  }

  lemma {:induction false} AlwaysInv(env: Env, world: World, i: nat)
    requires Evolves(env, world)
    ensures Inv(env, world(i))
  {
    hide Inv, Runs;
    if i > 0 {
      AlwaysInv(env, world, i - 1);
      assert Reaches(env, world(i - 1), world(i - 1 + 1));
      var steps :| Runs(env, world(i - 1), steps, world(i));
      RunKeepsInv(env, world(i - 1), steps, world(i));
    }
  }

  /** What a snapshot was published as stays known. */
  lemma {:induction false} Remembered(env: Env, world: World, i: nat, j: nat, n: Name)
    requires Evolves(env, world) && i <= j && n in world(i).history
    ensures n in world(j).history && world(j).history[n] == world(i).history[n]
  {
    hide Inv, Runs;
    if i < j {
      Remembered(env, world, i, j - 1, n);
      AlwaysInv(env, world, j - 1);
      assert Reaches(env, world(j - 1), world(j - 1 + 1));
      var steps :| Runs(env, world(j - 1), steps, world(j));
      HistoryGrows(env, world(j - 1), steps, world(j), n);
    }
  }

  /** The documents are small enough to number their lines. */
  ghost predicate Countable(world: World) {
    forall i, n, path | n in world(i).history && path in world(i).history[n].content ::
      |DocLines(world(i).history[n].content[path])| < MAX_INT
  }

  // ---------- Reads ----------

  function PointerName(d: Disk): Option<Name> {
    if d.pointer.Some? && d.pointer.value.Whole? then Some(d.pointer.value.value) else None
  }

  function ReadManifest(d: Disk, n: Name): Option<Manifest> {
    if n in d.snaps && d.snaps[n].manifest.Some? && d.snaps[n].manifest.value.Whole?
    then Some(d.snaps[n].manifest.value.value) else None
  }

  function ReadFile(env: Env, d: Disk, n: Name, path: string): Option<string> {
    var clean := env.clean(path);
    if clean.Some? && n in d.snaps && clean.value in d.snaps[n].files
    then Some(Bytes(d.snaps[n].files[clean.value])) else None
  }

  /** currentSnapshot: current.json names a snapshot, and then that snapshot has a manifest. */
  predicate Exists(world: World, clock: nat) {
    var pointer, later := PointerName(world(clock).disk), world(clock + 1).disk;
    pointer.Some? && pointer.value in later.snaps && later.snaps[pointer.value].manifest.Some?
  }

  /** The sections of the first k files of a published snapshot. */
  ghost function FirstSections(env: Env, t: Text, p: Published, k: nat): seq<Section>
    requires Present(env, p) && k <= |p.files|
  {
    if k == 0 then []
    else
      var path := p.files[k - 1].path;
      FirstSections(env, t, p, k - 1) + Parsed(t, path, p.content[env.clean(path).value])
  }

  ghost function SectionsOf(env: Env, t: Text, p: Published): seq<Section>
    requires Present(env, p)
  {
    FirstSections(env, t, p, |p.files|)
  }

  lemma {:induction false} FirstSectionsMean(env: Env, t: Text, p: Published, parts: seq<seq<Section>>, k: nat)
    requires Present(env, p) && k <= |p.files| == |parts|
    requires forall i | 0 <= i < k ::
               parts[i] == Parsed(t, p.files[i].path, p.content[env.clean(p.files[i].path).value])
    ensures FirstSections(env, t, p, k) == Flatten(parts[..k])
  {
    hide Parsed, Flatten;
    if k == 0 {
      assert Flatten<Section>([]) == [] by {
        NoParts();
      }
    } else {
      FirstSectionsMean(env, t, p, parts, k - 1);
      FlattenTo(parts, k - 1);
    }
  }

  lemma NoParts()
    ensures Flatten<Section>([]) == []
  {
  }

  /** The sections of a snapshot are those of its documents, one after another in the order it lists them. */
  lemma SectionsMean(env: Env, t: Text, p: Published, parts: seq<seq<Section>>)
    requires Present(env, p) && |parts| == |p.files|
    requires forall i | 0 <= i < |parts| ::
               parts[i] == Parsed(t, p.files[i].path, p.content[env.clean(p.files[i].path).value])
    ensures SectionsOf(env, t, p) == Flatten(parts)
  {
    hide Parsed, Flatten, FirstSections, Present;
    FirstSectionsMean(env, t, p, parts, |parts|);
    assert parts[..|parts|] == parts;
  }

  /** What is read of a published snapshot is what it was published with. */
  lemma ReadsAsPublished(env: Env, world: World, i: nat, j: nat, n: Name)
    requires Evolves(env, world) && i <= j && n in world(i).history
    ensures Present(env, world(i).history[n])
    ensures var m := ReadManifest(world(j).disk, n); m.Some? ==> m.value.files == world(i).history[n].files
    ensures forall path | ReadFile(env, world(j).disk, n, path).Some? ::
              && env.clean(path).value in world(i).history[n].content
              && ReadFile(env, world(j).disk, n, path).value == world(i).history[n].content[env.clean(path).value]
  {
    hide Reaches, WriterInv, PointerInv;
    Remembered(env, world, i, j, n);
    AlwaysInv(env, world, i);
    AlwaysInv(env, world, j);
  }

  /** The snapshot current.json names can be read. */
  lemma LiveCanBeRead(env: Env, world: World, i: nat, n: Name)
    requires Evolves(env, world) && PointerName(world(i).disk) == Some(n)
    ensures n in world(i).history && ReadManifest(world(i).disk, n).Some?
    ensures forall e <- world(i).history[n].files :: ReadFile(env, world(i).disk, n, e.path).Some?
  {
    hide Reaches, Evolves, WriterInv, LiveInv;
    AlwaysInv(env, world, i);
  }

  /** A snapshot is named once one was published, and there is a cache unless it is pruned before it is looked for. */
  lemma PublishedIsNamed(env: Env, world: World, i: nat)
    requires Evolves(env, world)
    ensures PointerName(world(i).disk).Some? <==> world(i).published != []
    ensures PointerName(world(i).disk).Some? ==>
              && world(i).disk.pointer == Some(Whole(PointerName(world(i).disk).value))
              && (PointerName(world(i + 1).disk) == PointerName(world(i).disk) ==> Exists(world, i))
    ensures Exists(world, i) ==>
              && world(i).published != [] && world(i).disk.pointer.value.Whole?
              && var n := world(i).disk.pointer.value.value;
                 n in world(i + 1).disk.snaps && world(i + 1).disk.snaps[n].manifest.Some?
  {
    hide Reaches, WriterInv, LiveInv, HistoryInv, Evolves;
    AlwaysInv(env, world, i);
    AlwaysInv(env, world, i + 1);
  }

  lemma StepNeverBack(env: Env, s: State, step: Step, n: Name)
    requires Inv(env, s) && Enabled(env, s, step) && n in s.history && PointerName(s.disk) != Some(n)
    ensures PointerName(After(env, s, step).disk) != Some(n)
  {
    hide LiveInv, HistoryInv, Staged, Listed, OnItsWay, OnlyReused;
  }

  lemma {:induction false} RunNeverBack(env: Env, s: State, steps: seq<Step>, s': State, n: Name)
    requires Inv(env, s) && Runs(env, s, steps, s') && n in s.history && PointerName(s.disk) != Some(n)
    ensures PointerName(s'.disk) != Some(n)
    decreases |steps|
  {
    hide Inv, Enabled, After, PointerName;
    if steps != [] {
      StepNeverBack(env, s, steps[0], n);
      StepKeepsInv(env, s, steps[0]);
      StepGrowsHistory(env, s, steps[0], n);
      RunNeverBack(env, After(env, s, steps[0]), steps[1..], s', n);
    }
  }

  /** A snapshot that is no longer the live one never is again. */
  lemma {:induction false} NeverBack(env: Env, world: World, i: nat, j: nat, k: nat)
    requires Evolves(env, world) && i <= j <= k && PointerName(world(i).disk).Some?
    requires PointerName(world(j).disk) != PointerName(world(i).disk)
    ensures PointerName(world(k).disk) != PointerName(world(i).disk)
    decreases k
  {
    hide Inv, Runs, PointerName;
    if j < k {
      NeverBack(env, world, i, j, k - 1);
      var n := PointerName(world(i).disk).value;
      CurrentIsPublished(env, world, i);
      Remembered(env, world, i, k - 1, n);
      AlwaysInv(env, world, k - 1);
      assert Reaches(env, world(k - 1), world(k - 1 + 1));
      var steps :| Runs(env, world(k - 1), steps, world(k));
      RunNeverBack(env, world(k - 1), steps, world(k), n);
    }
  }

  /** How often current.json names another snapshot at a moment than at the one before, from moment i to moment j. */
  ghost function Moves(world: World, i: nat, j: nat): nat
    decreases j
  {
    if j <= i then 0
    else Moves(world, i, j - 1) + if PointerName(world(j - 1).disk) == PointerName(world(j).disk) then 0 else 1
  }

  lemma MovesMean(world: World, i: nat)
    ensures Moves(world, i, i) == 0
    ensures Moves(world, i, i + 1) == if PointerName(world(i).disk) == PointerName(world(i + 1).disk) then 0 else 1
  {
    hide PointerName;
  }

  /** Over a time they add up. */
  lemma {:induction false} MovesAdd(world: World, i: nat, j: nat, k: nat)
    requires i <= j <= k
    ensures Moves(world, i, k) == Moves(world, i, j) + Moves(world, j, k)
    decreases k
  {
    hide PointerName;
    if j < k {
      MovesAdd(world, i, j, k - 1);
    }
  }

  lemma {:induction false} MovedBetween(world: World, i: nat, j: nat)
    requires i <= j && PointerName(world(i).disk) != PointerName(world(j).disk)
    ensures Moves(world, i, j) >= 1
    decreases j
  {
    hide PointerName;
    if PointerName(world(i).disk) != PointerName(world(j - 1).disk) {
      MovedBetween(world, i, j - 1);
    }
  }

  /** The same snapshot is live at every moment from i on, and before j. */
  ghost predicate Unraced(world: World, i: nat, j: nat) {
    && PointerName(world(i).disk).Some?
    && forall k | i <= k < j :: PointerName(world(k).disk) == PointerName(world(i).disk)
  }

  /** No snapshot lists more files than that. */
  ghost predicate ListsAtMost(world: World, limit: nat) {
    forall i, n | n in world(i).history :: |world(i).history[n].files| <= limit
  }

  /** The snapshot current.json names is published, and what readers see is what it was published as. */
  lemma CurrentIsPublished(env: Env, world: World, i: nat)
    requires Evolves(env, world) && PointerName(world(i).disk).Some?
    ensures var n := PointerName(world(i).disk).value;
            n in world(i).history && Live(world(i).disk) == Some(world(i).history[n])
  {
    hide Reaches, Live;
    AlwaysInv(env, world, i);
    LiveIsHistory(env, world(i));
  }

  /** Where something of a snapshot that was live is missing, it is no longer live. */
  lemma MissingIsRaced(env: Env, world: World, i: nat, j: nat, n: Name)
    requires Evolves(env, world) && i <= j && PointerName(world(i).disk) == Some(n) && n in world(i).history
    requires ReadManifest(world(j).disk, n).None?
             || exists e | e in world(i).history[n].files :: ReadFile(env, world(j).disk, n, e.path).None?
    ensures forall k | j < k :: !Unraced(world, i, k)
  {
    hide Evolves, ReadManifest, ReadFile;
    if PointerName(world(j).disk) == Some(n) {
      LiveCanBeRead(env, world, j, n);
      Remembered(env, world, i, j, n);
    }
  }

  lemma FileAsPublished(env: Env, world: World, i: nat, j: nat, n: Name, path: string)
    requires Evolves(env, world) && Countable(world) && i <= j && n in world(i).history
    ensures var data := ReadFile(env, world(j).disk, n, path);
            data.Some? ==>
              && env.clean(path).Some? && env.clean(path).value in world(i).history[n].content
              && data.value == world(i).history[n].content[env.clean(path).value]
              && |DocLines(data.value)| < MAX_INT
  {
    hide Evolves;
    ReadsAsPublished(env, world, i, j, n);
  }

  lemma NothingLive(world: World, i: nat, j: nat)
    requires PointerName(world(i).disk).None?
    ensures !Unraced(world, i, j)
  {
  }

  lemma Limited(world: World, i: nat, n: Name, limit: nat)
    requires n in world(i).history
    ensures ListsAtMost(world, limit) ==> |world(i).history[n].files| <= limit
  {
  }

  /**
   sections: the pointer is read once, and then the manifest and the files of the snapshot it named. Whatever
   is published and pruned meanwhile, the sections are those of that snapshot alone, or there is an error. There is
   none while the same snapshot stays live.
   */
  method ReadSections(env: Env, t: Text, world: World, clock: nat, ghost limit: nat)
    returns (all: Option<seq<Section>>, name: Name, clock': nat)
    requires Evolves(env, world) && Countable(world)
    ensures clock < clock'
    ensures all.Some? ==>
              && PointerName(world(clock).disk) == Some(name) && name in world(clock).history
              && Present(env, world(clock).history[name])
              && all.value == SectionsOf(env, t, world(clock).history[name])
    ensures Unraced(world, clock, clock') ==> all.Some?
    ensures ListsAtMost(world, limit) ==> clock' <= clock + limit + 3
  {
    hide Evolves, Present, Parsed, Unraced, Countable, ReadManifest, ReadFile, PointerName, ListsAtMost;
    name, clock' := "", clock + 1;
    var pointer := PointerName(world(clock).disk);
    if pointer.None? || ReadManifest(world(clock').disk, pointer.value).None? {
      if pointer.Some? {
        CurrentIsPublished(env, world, clock);
        MissingIsRaced(env, world, clock, clock', pointer.value);
      } else {
        NothingLive(world, clock, clock' + 1);
      }
      return None, name, clock' + 1;
    }
    name, clock' := pointer.value, clock' + 1;
    CurrentIsPublished(env, world, clock);
    ReadsAsPublished(env, world, clock, clock', name);
    var m := ReadManifest(world(clock').disk, name);
    clock' := clock' + 1;
    if m.None? {
      MissingIsRaced(env, world, clock, clock' - 1, name);
      return None, name, clock';
    }
    ghost var p := world(clock).history[name];
    Limited(world, clock, name, limit);
    var sections := [];
    for k := 0 to |m.value.files|
      invariant clock' == clock + 3 + k && m.value.files == p.files && sections == FirstSections(env, t, p, k)
    {
      var path := m.value.files[k].path;
      var data := ReadFile(env, world(clock').disk, name, path);
      FileAsPublished(env, world, clock, clock', name, path);
      clock' := clock' + 1;
      if data.None? {
        assert m.value.files[k] in p.files;
        MissingIsRaced(env, world, clock, clock' - 1, name);
        return None, name, clock';
      }
      var parsed := ParseDoc(t, path, data.value);
      sections := sections + parsed;
    }
    all := Some(sections);
  }

  // ---------- The resident index ----------

  /** The index of what readers see at moment i. */
  ghost predicate IsIndexAt<I>(env: Env, t: Text, build: seq<Section> -> I, world: World, i: nat, idx: I) {
    && Live(world(i).disk).Some? && Present(env, Live(world(i).disk).value)
    && idx == build(SectionsOf(env, t, Live(world(i).disk).value))
  }

  /** idx is the index of the snapshot gen, which is known at moment i. */
  ghost predicate IsIndexOf<I>(env: Env, t: Text, build: seq<Section> -> I, world: World, i: nat, gen: Name, idx: I) {
    && gen in world(i).history && Present(env, world(i).history[gen])
    && idx == build(SectionsOf(env, t, world(i).history[gen]))
  }

  lemma StillIndex<I>(env: Env, t: Text, build: seq<Section> -> I, world: World, i: nat, j: nat, gen: Name, idx: I)
    requires Evolves(env, world) && i <= j && IsIndexOf(env, t, build, world, i, gen, idx)
    ensures IsIndexOf(env, t, build, world, j, gen, idx)
  {
    hide Evolves, Present, SectionsOf;
    Remembered(env, world, i, j, gen);
  }

  /** The index of the snapshot current.json names is that of what readers see. */
  lemma CurrentIndex<I>(env: Env, t: Text, build: seq<Section> -> I, world: World, i: nat, gen: Name, idx: I)
    requires Evolves(env, world) && IsIndexOf(env, t, build, world, i, gen, idx)
    requires PointerName(world(i).disk) == Some(gen)
    ensures IsIndexAt(env, t, build, world, i, idx)
  {
    hide Evolves, Present, SectionsOf, Live;
    CurrentIsPublished(env, world, i);
  }

  class Service<I> {
    const env: Env
    const text: Text
    const build: seq<Section> -> I
    var idx: Option<I>
    var idxGen: Name
    var idxBuilds: nat

    constructor (env: Env, text: Text, build: seq<Section> -> I)
      ensures this.env == env && this.text == text && this.build == build && idx.None? && idxBuilds == 0
    {
      this.env, this.text, this.build := env, text, build;
      idx, idxGen, idxBuilds := None, "", 0;
    }

    /** A resident index is that of the snapshot it is kept for. */
    ghost predicate Valid(world: World, i: nat)
      reads this
    {
      idx.Some? ==> IsIndexOf(env, text, build, world, i, idxGen, idx.value)
    }

    /**
     Every index returned is that of the snapshot that was live at some moment of the call; the resident one is
     returned, and none is built, exactly when it is of the snapshot live then.
     */
    method ResolveIndex(world: World, clock: nat, offline: bool, synced: bool, ghost limit: nat)
      returns (r: Option<I>, clock': nat)
      requires Evolves(env, world) && Countable(world) && Valid(world, clock)
      modifies this
      ensures clock < clock' && Valid(world, clock')
      ensures r.Some? ==> exists i | clock <= i < clock' :: IsIndexAt(env, text, build, world, i, r.value)
      ensures r.Some? ==> r == idx
      ensures r.None? ==> idx == old(idx) && idxGen == old(idxGen) && idxBuilds == old(idxBuilds)
      ensures var available := Exists(world, clock) || (!offline && synced);
              var gen := PointerName(world(clock + 2).disk);
              if !available || gen.None? then r.None?
              else if old(idx).Some? && gen == Some(old(idxGen)) then
                r == old(idx) && idxGen == old(idxGen) && idxBuilds == old(idxBuilds)
              else if r.Some? then idxBuilds == old(idxBuilds) + 1
              // There is no cache any more, or other snapshots were published three times meanwhile.
              else PointerName(world(clock' - 1).disk).None? || Moves(world, clock + 2, clock') >= 3
      ensures ListsAtMost(world, limit) ==> clock' <= clock + 3 + 3 * (limit + 4)
    {
      hide Evolves, IsIndexOf, IsIndexAt, Moves, ListsAtMost, Exists, PointerName;
      r, clock' := None, clock + 2;
      // ensureCache: without a cache, a sync that may fail, and that makes steps of its own.
      if !Exists(world, clock) {
        if offline || !synced {
          Later(world, clock, clock');
          return;
        }
      }
      var gen := PointerName(world(clock').disk);
      Later(world, clock, clock' + 1);
      Later(world, clock, clock');
      clock' := clock' + 1;
      if gen.None? {
        return;
      }
      if idx.Some? && idxGen == gen.value {
        CurrentIndex(env, text, build, world, clock' - 1, idxGen, idx.value);
        return idx, clock';
      }
      r, clock' := Build(world, clock', gen.value, limit);
    }

    lemma Later(world: World, i: nat, j: nat)
      requires Evolves(env, world) && Valid(world, i) && i <= j
      ensures Valid(world, j)
    {
      hide Evolves, IsIndexOf;
      if idx.Some? {
        StillIndex(env, text, build, world, i, j, idxGen, idx.value);
      }
    }

    /** Builds the index, again when the pointer moved meanwhile, up to three times. */
    method Build(world: World, clock: nat, gen0: Name, ghost limit: nat) returns (r: Option<I>, clock': nat)
      requires Evolves(env, world) && Countable(world) && Valid(world, clock)
      requires clock > 0 && PointerName(world(clock - 1).disk) == Some(gen0)
      modifies this
      ensures clock < clock' && Valid(world, clock')
      ensures r.Some? ==> exists i | clock <= i < clock' :: IsIndexAt(env, text, build, world, i, r.value)
      ensures r.Some? ==> r == idx && idxBuilds == old(idxBuilds) + 1
      ensures r.None? ==> idx == old(idx) && idxGen == old(idxGen) && idxBuilds == old(idxBuilds)
      ensures r.None? ==> PointerName(world(clock' - 1).disk).None? || Moves(world, clock - 1, clock') >= 3
      ensures ListsAtMost(world, limit) ==> clock' <= clock + 3 * (limit + 4)
    {
      hide Evolves, IsIndexOf, IsIndexAt, Moves, ListsAtMost, PointerName, Unraced, Countable, SectionsOf, Present;
      var gen, seen := gen0, clock - 1;
      clock' := clock;
      for attempt := 0 to 3
        invariant clock <= clock' && idx == old(idx) && idxGen == old(idxGen) && idxBuilds == old(idxBuilds)
        invariant clock - 1 <= seen < clock' && PointerName(world(seen).disk) == Some(gen)
        invariant attempt > 0 ==> clock < clock'
        invariant Moves(world, clock - 1, clock') >= attempt
        invariant ListsAtMost(world, limit) ==> clock' <= clock + attempt * (limit + 4)
      {
        var start := clock';
        assert attempt == 0 || attempt == 1 || attempt == 2;
        var sections, builtGen;
        sections, builtGen, clock' := ReadSections(env, text, world, start, limit);
        var after := PointerName(world(clock').disk);
        clock' := clock' + 1;
        if sections.None? {
          if after.Some? {
            Raced(env, world, seen, start, clock' - 1);
          }
          if after.Some? && after.value != gen {
            Counted(world, clock - 1, start, clock' - 1);
            gen, seen := after.value, clock' - 1;
            continue;
          }
          Later(world, clock, clock');
          return None, clock';
        }
        if after.None? {
          Later(world, clock, clock');
          return None, clock';
        }
        if after.value != builtGen {
          Counted(world, clock - 1, start, clock' - 1);
          gen, seen := after.value, clock' - 1;
          continue;
        }
        Install(world, start, clock', builtGen, sections.value);
        return idx, clock';
      }
      Later(world, clock, clock');
      r := None;
    }

    method Install(world: World, start: nat, clock: nat, builtGen: Name, sections: seq<Section>)
      requires Evolves(env, world) && start < clock && PointerName(world(start).disk) == Some(builtGen)
      requires builtGen in world(start).history && Present(env, world(start).history[builtGen])
      requires sections == SectionsOf(env, text, world(start).history[builtGen])
      modifies this
      ensures idxGen == builtGen && idx == Some(build(sections)) && idxBuilds == old(idxBuilds) + 1
      ensures Valid(world, clock) && IsIndexAt(env, text, build, world, start, idx.value)
    {
      hide Evolves, Present, SectionsOf, IsIndexAt;
      idx, idxGen, idxBuilds := Some(build(sections)), builtGen, idxBuilds + 1;
      CurrentIndex(env, text, build, world, start, builtGen, idx.value);
      StillIndex(env, text, build, world, start, clock, builtGen, idx.value);
    }
  }

  /** A read that failed was raced: what is live after it was live neither when it began nor at any moment before. */
  lemma Raced(env: Env, world: World, seen: nat, start: nat, after: nat)
    requires Evolves(env, world) && seen <= start < after && !Unraced(world, start, after)
    requires PointerName(world(seen).disk).Some? && PointerName(world(after).disk).Some?
    ensures PointerName(world(after).disk) != PointerName(world(start).disk)
    ensures PointerName(world(after).disk) != PointerName(world(seen).disk)
  {
    hide Evolves, PointerName;
    if PointerName(world(start).disk).Some? {
      var k :| start <= k < after && PointerName(world(k).disk) != PointerName(world(start).disk);
      NeverBack(env, world, start, k, after);
    }
    if PointerName(world(seen).disk) != PointerName(world(start).disk) {
      NeverBack(env, world, seen, start, after);
    }
  }

  lemma Counted(world: World, i: nat, start: nat, after: nat)
    requires i <= start <= after && PointerName(world(start).disk) != PointerName(world(after).disk)
    ensures Moves(world, i, after + 1) >= Moves(world, i, start) + 1
  {
    hide PointerName;
    MovesAdd(world, i, start, after);
    MovedBetween(world, start, after);
  }
}
