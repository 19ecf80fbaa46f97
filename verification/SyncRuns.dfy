/** What sequences of sync cycles leave on disk: where every byte comes from, and what an etag stands for. */
module SyncRuns {
  import opened Wrappers
  import opened BigEndian
  import opened WorldParser
  import opened SyncProvider

  /** One cycle: what was fetched, whether the directories could be made, and what each item met. */
  datatype Step = Step(fetched: Fetched, dirs: bool, cycle: Cycle)

  type Run = steps: seq<Step> | forall step :: step in steps ==> IsCycleFor(step.fetched, step.cycle) witness []

  function After(env: Env, rollback: bool, s: Store, steps: Run): Store
    decreases |steps|
  {
    if steps == [] then s
    else
      var before, last := steps[..|steps| - 1], steps[|steps| - 1];
      Executed(env, rollback, After(env, rollback, s, before), last.fetched, last.dirs, last.cycle)
  }

  // ----- Provenance -----------------------------------------------------------------------------

  function ItemsOf(fetched: Fetched): set<Item> {
    if fetched.Fetched?
    then (set i | i in fetched.manifest.planets) + (set i | i in fetched.manifest.moons) else {}
  }

  function Seen(steps: seq<Step>): set<Item> {
    set step, i | step in steps && i in ItemsOf(step.fetched) :: i
  }

  /** Some item's hash, in either case of its digits, and a structure with at least one root. */
  ghost predicate IsVerified(env: Env, items: set<Item>, data: Bytes) {
    && (exists i :: i in items && Matches(env, data, i))
    && Parse(env.std, data).Ok? && Parse(env.std, data).value.roots != []
  }

  /** Two hashes match if they differ in the case of letters only. */
  lemma HashesMatchExactly(env: Env, data: Bytes, item: Item)
    ensures Matches(env, data, item)
       <==> && |env.hash(data)| == |item.sha256|
            && forall i :: 0 <= i < |item.sha256| ==>
                 var a, b := env.hash(data)[i], item.sha256[i];
                 a == b || ('A' <= a <= 'Z' && b == a + 32 as char) || ('A' <= b <= 'Z' && a == b + 32 as char)
  {
    var a, b := env.hash(data), item.sha256;
    var la, lb := LowerAscii(a), LowerAscii(b);
    if |a| == |b| {
      forall i | 0 <= i < |a|
        ensures la[i] == lb[i] <==>
          || a[i] == b[i]
          || ('A' <= a[i] <= 'Z' && b[i] == a[i] + 32 as char)
          || ('A' <= b[i] <= 'Z' && a[i] == b[i] + 32 as char)
      {
      }
      assert la == lb <==> forall i :: 0 <= i < |la| ==> la[i] == lb[i];
    } else {
      assert |la| != |lb|;
    }
  }

  /** The files whose initial bytes may end up at a path; a moon called "planet" shares its backup with the planet. */
  function Sources(p: Path): set<Path> {
    match p
    case Planet => {Planet, Backup("planet"), Moon("planet")}
    case Moon(_) => {p}
    case Staged(_) => {p}
    case Backup(name) => {p, Moon(name), Planet, Backup("planet"), Moon("planet")}
  }

  ghost predicate IsTraced(env: Env, init: Files, items: set<Item>, p: Path, data: Bytes) {
    IsVerified(env, items, data) || exists q :: q in Sources(p) && q in init && init[q] == data
  }

  ghost predicate AllTraced(env: Env, init: Files, items: set<Item>, files: Files) {
    forall p :: p in files ==> IsTraced(env, init, items, p, files[p])
  }

  lemma CopyIsTraced(env: Env, init: Files, items: set<Item>, files: Files, from: Path, to: Path, works: bool)
    requires AllTraced(env, init, items, files) && Sources(from) <= Sources(to)
    ensures AllTraced(env, init, items, CopiedTo(files, from, to, works))
  {
    hide Sources, IsVerified;
    if from in files {
      assert IsTraced(env, init, items, from, files[from]);
      assert IsTraced(env, init, items, to, files[from]);
    }
  }

  lemma AssetIsTraced(env: Env, init: Files, items: set<Item>, files: Files, item: Item, isPlanet: bool, o: Outcome)
    requires AllTraced(env, init, items, files) && item in items
    ensures AllTraced(env, init, items, AssetSynced(env, files, item, isPlanet, o).0)
  {
    hide IsValid, CopiedTo, IsTraced, Sources, Matches;
    if o.download.Some? && IsValid(env, o.download.value, item) {
      var data := o.download.value;
      assert forall p :: IsTraced(env, init, items, p, data) by { VerifiedIsTraced(env, init, items, item, data); }
      var staged := files[Staged(item.name) := data];
      TargetFeedsBackup(item, isPlanet);
      CopyIsTraced(env, init, items, staged, TargetOf(item, isPlanet), Backup(item.name), o.copied);
    }
  }

  lemma VerifiedIsTraced(env: Env, init: Files, items: set<Item>, item: Item, data: Bytes)
    requires item in items && IsValid(env, data, item)
    ensures forall p :: IsTraced(env, init, items, p, data)
  {
    hide Matches, Parse;
  }

  lemma TargetFeedsBackup(item: Item, isPlanet: bool)
    ensures Sources(TargetOf(item, isPlanet)) <= Sources(Backup(item.name))
    ensures Sources(Backup("planet")) <= Sources(Planet)
  {
  }

  lemma {:induction false} ItemsAreTraced(env: Env, init: Files, seen: set<Item>, p: Progress, items: seq<Item>,
                                          isPlanet: bool, os: seq<Outcome>)
    requires |items| == |os| && AllTraced(env, init, seen, p.files) && forall i :: i in items ==> i in seen
    ensures AllTraced(env, init, seen, AllSynced(env, p, items, isPlanet, os).files)
    decreases |items|
  {
    hide AllTraced, AssetSynced;
    if items != [] {
      AssetIsTraced(env, init, seen, p.files, items[0], isPlanet, os[0]);
      ItemsAreTraced(env, init, seen, Advanced(env, p, items[0], isPlanet, os[0]), items[1..], isPlanet, os[1..]);
    }
  }

  lemma CycleIsTraced(env: Env, rollback: bool, init: Files, seen: set<Item>, s: Store, step: Step)
    requires IsCycleFor(step.fetched, step.cycle)
    requires AllTraced(env, init, seen, s.files) && ItemsOf(step.fetched) <= seen
    ensures AllTraced(env, init, seen, Executed(env, rollback, s, step.fetched, step.dirs, step.cycle).files)
  {
    hide AllTraced, AllSynced, CopiedTo, Sources;
    if step.fetched.Fetched? {
      var m, c := step.fetched.manifest, step.cycle;
      assert forall i :: i in m.planets || i in m.moons ==> i in ItemsOf(step.fetched);
      ItemsAreTraced(env, init, seen, Progress(s.files, 0, false), m.planets, true, c.planets);
      var planets := PlanetsSynced(env, s.files, m, c);
      ItemsAreTraced(env, init, seen, Progress(planets.files, 0, false), m.moons, false, c.moons);
      TargetFeedsBackup(Item("planet", ""), true);
      CopyIsTraced(env, init, seen, planets.files, Backup("planet"), Planet, c.rollback);
    }
  }

  lemma MoreItems(env: Env, init: Files, a: set<Item>, b: set<Item>, files: Files)
    requires AllTraced(env, init, a, files) && a <= b
    ensures AllTraced(env, init, b, files)
  {
    hide IsValid, Sources;
  }

  /**
   * After any cycles, whatever failed in them: every file holds bytes that some fetched manifest's hash and the parser
   * vouched for, or bytes that were there initially, at that path or at one that backups and rollbacks copy there.
   */
  lemma {:induction false} EveryFileIsTraced(env: Env, rollback: bool, s: Store, steps: Run)
    ensures AllTraced(env, s.files, Seen(steps), After(env, rollback, s, steps).files)
    decreases |steps|
  {
    hide Executed, IsValid, ItemsOf;
    if steps != [] {
      var before, last := steps[..|steps| - 1], steps[|steps| - 1];
      EveryFileIsTraced(env, rollback, s, before);
      assert last in steps;
      assert Seen(before) <= Seen(steps) && ItemsOf(last.fetched) <= Seen(steps);
      MoreItems(env, s.files, Seen(before), Seen(steps), After(env, rollback, s, before).files);
      CycleIsTraced(env, rollback, s.files, Seen(steps), After(env, rollback, s, before), last);
    } else {
      InitialIsTraced(env, s.files);
    }
  }

  lemma InitialIsTraced(env: Env, files: Files)
    ensures AllTraced(env, files, Seen([]), files)
  {
    forall p | p in files
      ensures IsTraced(env, files, Seen([]), p, files[p])
    {
      assert p in Sources(p);
    }
  }

  // ----- Etags ----------------------------------------------------------------------------------

  predicate IsTarget(p: Path) {
    p.Planet? || p.Moon?
  }

  predicate IsLast(items: seq<Item>, isPlanet: bool, i: nat)
    requires i < |items|
  {
    forall j :: i < j < |items| ==> TargetOf(items[j], isPlanet) != TargetOf(items[i], isPlanet)
  }

  predicate Holds(env: Env, files: Files, item: Item, isPlanet: bool) {
    TargetOf(item, isPlanet) in files && Matches(env, files[TargetOf(item, isPlanet)], item)
  }

  /** Of the items that share a target, the last is the one whose bytes are there. */
  predicate HoldsAll(env: Env, files: Files, items: seq<Item>, isPlanet: bool) {
    forall i :: 0 <= i < |items| && IsLast(items, isPlanet, i) ==> Holds(env, files, items[i], isPlanet)
  }

  function At(files: Files, p: Path): Option<Bytes> {
    if p in files then Some(files[p]) else None
  }

  /** An item touches no other target, and its own only by succeeding; success means that its bytes are there. */
  lemma AssetTargets(env: Env, files: Files, item: Item, isPlanet: bool, o: Outcome)
    ensures var (files', r) := AssetSynced(env, files, item, isPlanet, o);
      && (forall p :: IsTarget(p) && (r.Err? || p != TargetOf(item, isPlanet)) ==> At(files', p) == At(files, p))
      && (r.Ok? ==> Holds(env, files', item, isPlanet))
  {
    hide Matches, Parse;
  }

  lemma {:induction false} OtherTargetsKept(env: Env, p: Progress, items: seq<Item>, isPlanet: bool,
                                            os: seq<Outcome>, q: Path)
    requires |items| == |os| && IsTarget(q) && forall i :: i in items ==> TargetOf(i, isPlanet) != q
    ensures At(AllSynced(env, p, items, isPlanet, os).files, q) == At(p.files, q)
    decreases |items|
  {
    hide AssetSynced, TargetOf;
    if items != [] {
      AssetTargets(env, p.files, items[0], isPlanet, os[0]);
      OtherTargetsKept(env, Advanced(env, p, items[0], isPlanet, os[0]), items[1..], isPlanet, os[1..], q);
    }
  }

  lemma {:induction false} SyncedHolds(env: Env, p: Progress, items: seq<Item>, isPlanet: bool, os: seq<Outcome>)
    requires |items| == |os| && !AllSynced(env, p, items, isPlanet, os).failed
    ensures HoldsAll(env, AllSynced(env, p, items, isPlanet, os).files, items, isPlanet)
    decreases |items|
  {
    hide AssetSynced, TargetOf, Matches;
    if items != [] {
      var next := Advanced(env, p, items[0], isPlanet, os[0]);
      var rest := items[1..];
      var done := AllSynced(env, next, rest, isPlanet, os[1..]);
      assert !next.failed by {
        if next.failed {
          FailedStops(env, next, rest, isPlanet, os[1..]);
        }
      }
      SyncedHolds(env, next, rest, isPlanet, os[1..]);
      AssetTargets(env, p.files, items[0], isPlanet, os[0]);
      TargetsAreTargets();
      forall i | 0 <= i < |items| && IsLast(items, isPlanet, i)
        ensures Holds(env, done.files, items[i], isPlanet)
      {
        if i == 0 {
          OtherTargetsKept(env, next, rest, isPlanet, os[1..], TargetOf(items[0], isPlanet));
        } else {
          assert IsLast(rest, isPlanet, i - 1);
        }
      }
    }
  }

  lemma TargetsAreTargets()
    ensures forall item, isPlanet :: IsTarget(TargetOf(item, isPlanet))
  {
  }

  predicate HoldsManifest(env: Env, files: Files, m: Manifest) {
    HoldsAll(env, files, m.planets, true) && HoldsAll(env, files, m.moons, false)
  }

  /** A cycle that succeeds leaves the files of its manifest, whatever it had to replace for that. */
  lemma SuccessHoldsManifest(env: Env, rollback: bool, s: Store, step: Step)
    requires IsCycleFor(step.fetched, step.cycle) && Succeeds(env, s.files, step.fetched, step.dirs, step.cycle)
    ensures var files := Executed(env, rollback, s, step.fetched, step.dirs, step.cycle).files;
      HoldsManifest(env, files, step.fetched.manifest)
  {
    hide AllSynced, Matches;
    var m, c := step.fetched.manifest, step.cycle;
    var planets, moons := PlanetsSynced(env, s.files, m, c), MoonsSynced(env, s.files, m, c);
    SyncedHolds(env, Progress(s.files, 0, false), m.planets, true, c.planets);
    SyncedHolds(env, Progress(planets.files, 0, false), m.moons, false, c.moons);
    OtherTargetsKept(env, Progress(planets.files, 0, false), m.moons, false, c.moons, Planet);
    assert At(moons.files, Planet) == At(planets.files, Planet);
  }

  predicate SucceedsIn(env: Env, rollback: bool, s: Store, steps: Run, k: nat)
    requires k < |steps|
  {
    Succeeds(env, After(env, rollback, s, steps[..k]).files, steps[k].fetched, steps[k].dirs, steps[k].cycle)
  }

  /** An etag other than the initial one is of a cycle that succeeded, after which the files were its manifest's. */
  lemma {:induction false} EtagMeansSynced(env: Env, rollback: bool, s: Store, steps: Run) returns (k: nat)
    requires After(env, rollback, s, steps).etag != s.etag
    ensures k < |steps| && steps[k].fetched.Fetched? && SucceedsIn(env, rollback, s, steps, k)
    ensures steps[k].fetched.etag == After(env, rollback, s, steps).etag
    ensures HoldsManifest(env, After(env, rollback, s, steps[..k + 1]).files, steps[k].fetched.manifest)
    decreases |steps|
  {
    hide HoldsManifest, PlanetsSynced, MoonsSynced;
    var n := |steps| - 1;
    var before, last := After(env, rollback, s, steps[..n]), steps[n];
    if before.etag == After(env, rollback, s, steps).etag {
      k := EtagMeansSynced(env, rollback, s, steps[..n]);
      assert steps[..n][..k] == steps[..k] && steps[..n][..k + 1] == steps[..k + 1];
    } else {
      k := n;
      SuccessHoldsManifest(env, rollback, before, last);
      assert steps[..n + 1] == steps;
    }
  }

  // ----- Failed planets -------------------------------------------------------------------------

  /** The item that ends a loop: all before it succeeded, and it leaves the files as they are. */
  lemma {:induction false} FirstFailure(env: Env, p: Progress, items: seq<Item>, isPlanet: bool, os: seq<Outcome>)
    returns (k: nat)
    requires |items| == |os| && !p.failed && AllSynced(env, p, items, isPlanet, os).failed
    ensures k < |items|
    ensures var before := AllSynced(env, p, items[..k], isPlanet, os[..k]);
      var (files, r) := AssetSynced(env, before.files, items[k], isPlanet, os[k]);
      !before.failed && r.Err? && AllSynced(env, p, items, isPlanet, os).files == files
    decreases |items|
  {
    hide AssetSynced;
    var next := Advanced(env, p, items[0], isPlanet, os[0]);
    if next.failed {
      FailedStops(env, next, items[1..], isPlanet, os[1..]);
      k := 0;
    } else {
      var k' := FirstFailure(env, next, items[1..], isPlanet, os[1..]);
      k := k' + 1;
      assert items[..k][1..] == items[1..][..k'] && os[..k][1..] == os[1..][..k'];
    }
  }

  /** The download is in place and only the final rename is missing. */
  predicate ReachesSwap(env: Env, item: Item, o: Outcome) {
    o.download.Some? && IsValid(env, o.download.value, item) && o.written
  }

  lemma FailedAssetBackups(env: Env, files: Files, item: Item, o: Outcome)
    requires AssetSynced(env, files, item, true, o).1.Err?
    ensures var files' := AssetSynced(env, files, item, true, o).0;
      At(files', Backup("planet")) ==
        if item.name == "planet" && ReachesSwap(env, item, o) && o.copied && Planet in files then At(files, Planet)
        else At(files, Backup("planet"))
  {
    hide IsValid, Matches;
  }

  /**
   * A failed planet with rollback on: the planet becomes planet.bak, where there is one; the planet from before that
   * item survives if there is none, if the copy fails, or if the item's own backup has just made planet.bak of it.
   */
  lemma FailedPlanetExactly(env: Env, s: Store, step: Step) returns (k: nat, before: Files)
    requires IsCycleFor(step.fetched, step.cycle) && step.fetched.Fetched? && step.dirs
    requires PlanetsSynced(env, s.files, step.fetched.manifest, step.cycle).failed
    ensures var items, os := step.fetched.manifest.planets, step.cycle.planets;
      && k < |items|
      && AllSynced(env, Progress(s.files, 0, false), items[..k], true, os[..k]).files == before
      && AssetSynced(env, before, items[k], true, os[k]).1.Err?
      && At(Executed(env, true, s, step.fetched, step.dirs, step.cycle).files, Planet) ==
           (if !step.cycle.rollback || Backup("planet") !in before
               || (items[k].name == "planet" && ReachesSwap(env, items[k], os[k]) && os[k].copied && Planet in before)
            then At(before, Planet)
            else At(before, Backup("planet")))
      && (forall p: Path :: p.Moon? ==>
            At(Executed(env, true, s, step.fetched, step.dirs, step.cycle).files, p) == At(before, p))
  {
    hide AssetSynced, AllSynced, ReachesSwap;
    var m, c := step.fetched.manifest, step.cycle;
    k := FirstFailure(env, Progress(s.files, 0, false), m.planets, true, c.planets);
    before := AllSynced(env, Progress(s.files, 0, false), m.planets[..k], true, c.planets[..k]).files;
    AssetTargets(env, before, m.planets[k], true, c.planets[k]);
    FailedAssetBackups(env, before, m.planets[k], c.planets[k]);
  }

  /** With rollback off, a failed planet leaves every target as it was before that item. */
  lemma FailedPlanetWithoutRollback(env: Env, s: Store, step: Step) returns (k: nat, before: Files)
    requires IsCycleFor(step.fetched, step.cycle) && step.fetched.Fetched? && step.dirs
    requires PlanetsSynced(env, s.files, step.fetched.manifest, step.cycle).failed
    ensures var items, os := step.fetched.manifest.planets, step.cycle.planets;
      && k < |items|
      && AllSynced(env, Progress(s.files, 0, false), items[..k], true, os[..k]).files == before
      && forall p :: IsTarget(p) ==>
           At(Executed(env, false, s, step.fetched, step.dirs, step.cycle).files, p) == At(before, p)
  {
    hide AssetSynced, AllSynced;
    var m, c := step.fetched.manifest, step.cycle;
    k := FirstFailure(env, Progress(s.files, 0, false), m.planets, true, c.planets);
    before := AllSynced(env, Progress(s.files, 0, false), m.planets[..k], true, c.planets[..k]).files;
    AssetTargets(env, before, m.planets[k], true, c.planets[k]);
  }

  // ----- Replacements ---------------------------------------------------------------------------

  /** A replaced target holds the download, its old bytes are in the item's backup, and nothing stays staged. */
  lemma ReplacementEffects(env: Env, files: Files, item: Item, isPlanet: bool, o: Outcome)
    ensures var (files', r) := AssetSynced(env, files, item, isPlanet, o);
      var target := if isPlanet then Planet else Moon(item.name);
      && (r == Ok(true) ==>
            && o.download.Some? && At(files', target) == o.download && At(files', Staged(item.name)) == None
            && (target in files && o.copied ==> At(files', Backup(item.name)) == Some(files[target]))
            && (target !in files || !o.copied ==> At(files', Backup(item.name)) == At(files, Backup(item.name))))
      && (r == Ok(false) ==> files' == files)
      && (forall p :: p != target && p != Staged(item.name) && p != Backup(item.name) ==> At(files', p) == At(files, p))
      && (target in files && o.readable && Matches(env, files[target], item) <==> r == Ok(false))
      && (r.Ok? || o.download == None || !o.written || !o.renamed || !IsVerified(env, {item}, o.download.value))
  {
    hide Parse, LowerAscii;
  }

  /** Each item has a target of its own: at most one planet, and moons of different names. */
  predicate HasOwnTargets(items: seq<Item>, isPlanet: bool) {
    forall i, j :: 0 <= i < j < |items| ==> TargetOf(items[i], isPlanet) != TargetOf(items[j], isPlanet)
  }

  lemma {:induction false} CurrentItemsAreLeft(env: Env, p: Progress, items: seq<Item>, isPlanet: bool,
                                               os: seq<Outcome>)
    requires |items| == |os| && !p.failed
    requires forall i :: 0 <= i < |items| ==> os[i].readable && Holds(env, p.files, items[i], isPlanet)
    ensures AllSynced(env, p, items, isPlanet, os) == p
    decreases |items|
  {
    hide Matches, IsValid;
    if items != [] {
      assert Advanced(env, p, items[0], isPlanet, os[0]) == p;
      CurrentItemsAreLeft(env, p, items[1..], isPlanet, os[1..]);
    }
  }

  /** A cycle that finds what the last one left, and can read it, replaces nothing, downloads or not, and succeeds. */
  lemma SecondCycleIsIdle(env: Env, rollback: bool, s: Store, step: Step, again: Step)
    requires IsCycleFor(step.fetched, step.cycle) && Succeeds(env, s.files, step.fetched, step.dirs, step.cycle)
    requires IsCycleFor(again.fetched, again.cycle) && again.fetched == step.fetched && again.dirs
    requires HasOwnTargets(step.fetched.manifest.planets, true) && HasOwnTargets(step.fetched.manifest.moons, false)
    requires forall o :: o in again.cycle.planets || o in again.cycle.moons ==> o.readable
    ensures var s' := Executed(env, rollback, s, step.fetched, step.dirs, step.cycle);
      && Succeeds(env, s'.files, again.fetched, again.dirs, again.cycle)
      && Executed(env, rollback, s', again.fetched, again.dirs, again.cycle) == s'
      && PlanetsSynced(env, s'.files, again.fetched.manifest, again.cycle).synced == 0
      && MoonsSynced(env, s'.files, again.fetched.manifest, again.cycle).synced == 0
  {
    hide AllSynced, Matches, TargetOf;
    var m := step.fetched.manifest;
    SuccessHoldsManifest(env, rollback, s, step);
    var files := Executed(env, rollback, s, step.fetched, step.dirs, step.cycle).files;
    assert forall i: nat :: i < |m.planets| ==> IsLast(m.planets, true, i);
    assert forall i: nat :: i < |m.moons| ==> IsLast(m.moons, false, i);
    CurrentItemsAreLeft(env, Progress(files, 0, false), m.planets, true, again.cycle.planets);
    CurrentItemsAreLeft(env, Progress(files, 0, false), m.moons, false, again.cycle.moons);
  }

  // ----- The etag over runs ---------------------------------------------------------------------

  /** A cycle that succeeds and brings an etag. */
  predicate BringsEtag(env: Env, rollback: bool, s: Store, steps: Run, k: nat)
    requires k < |steps|
  {
    SucceedsIn(env, rollback, s, steps, k) && steps[k].fetched.Fetched? && steps[k].fetched.etag.Some?
  }

  /** The stored etag is always that of the last cycle that succeeded and brought one, else the initial one. */
  lemma {:induction false} LastEtagExactly(env: Env, rollback: bool, s: Store, steps: Run) returns (last: Option<nat>)
    ensures forall j: nat :: j < |steps| && (last.Some? ==> last.value < j) ==> !BringsEtag(env, rollback, s, steps, j)
    ensures last == None ==> After(env, rollback, s, steps).etag == s.etag
    ensures last.Some? ==>
      && last.value < |steps| && BringsEtag(env, rollback, s, steps, last.value)
      && steps[last.value].fetched.Fetched?
      && After(env, rollback, s, steps).etag == steps[last.value].fetched.etag
    decreases |steps|
  {
    hide After, BringsEtag;
    if steps == [] {
      last := None;
      NothingRun(env, rollback, s);
    } else {
      var n := |steps| - 1;
      EtagAfterOne(env, rollback, s, steps);
      if BringsEtag(env, rollback, s, steps, n) {
        last := Some(n);
        BringsEtagIsFetched(env, rollback, s, steps, n);
      } else {
        last := LastEtagExactly(env, rollback, s, steps[..n]);
        forall k: nat | k < n
          ensures BringsEtag(env, rollback, s, steps[..n], k) == BringsEtag(env, rollback, s, steps, k)
        {
          EtagsOfPrefix(env, rollback, s, steps, n, k);
        }
        assert last.Some? ==> steps[last.value].fetched.Fetched? by {
          if last.Some? {
            BringsEtagIsFetched(env, rollback, s, steps, last.value);
          }
        }
      }
    }
  }

  lemma BringsEtagIsFetched(env: Env, rollback: bool, s: Store, steps: Run, k: nat)
    requires k < |steps| && BringsEtag(env, rollback, s, steps, k)
    ensures steps[k].fetched.Fetched?
  {
    hide Succeeds, After;
  }

  lemma NothingRun(env: Env, rollback: bool, s: Store)
    ensures After(env, rollback, s, []) == s
  {
  }

  lemma EtagsOfPrefix(env: Env, rollback: bool, s: Store, steps: Run, n: nat, k: nat)
    requires k < n <= |steps|
    ensures BringsEtag(env, rollback, s, steps[..n], k) == BringsEtag(env, rollback, s, steps, k)
  {
    hide Succeeds, After;
    assert steps[..n][..k] == steps[..k];
  }

  lemma EtagAfterOne(env: Env, rollback: bool, s: Store, steps: Run)
    requires steps != []
    ensures var n := |steps| - 1;
      After(env, rollback, s, steps).etag ==
        if BringsEtag(env, rollback, s, steps, n) then steps[n].fetched.etag
        else After(env, rollback, s, steps[..n]).etag
  {
    hide PlanetsSynced, MoonsSynced;
  }
}
