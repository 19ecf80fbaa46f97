/** The topology sync cycle: planets and moons downloaded, checked, staged, backed up and swapped in. */
module SyncProvider {
  import opened Wrappers
  import opened BigEndian
  import opened WorldParser

  /** `planet`, `moons.d/<name>`, `staging/<name>.tmp` and `backups/<name>.bak`. */
  datatype Path = Planet | Moon(name: string) | Staged(name: string) | Backup(name: string)

  type Files = map<Path, Bytes>

  datatype Item = Item(name: string, sha256: string)

  /** The text routines of the parser, and SHA-256 in hexadecimal. */
  datatype Env = Env(std: Std, hash: Bytes -> string)

  /** What the network and the file system do for one item. */
  datatype Outcome = Outcome(readable: bool, download: Option<Bytes>, written: bool, copied: bool, renamed: bool)

  datatype Manifest = Manifest(planets: seq<Item>, moons: seq<Item>)

  datatype Fetched = FetchFailed | NotModified | Fetched(manifest: Manifest, etag: Option<string>)

  datatype Status = Failed | Unchanged | Synced

  datatype Summary = Summary(status: Status, planets: nat, moons: nat, etag: Option<string>)

  function LowerAscii(s: string): string {
    seq(|s|, i requires 0 <= i < |s| => if 'A' <= s[i] <= 'Z' then s[i] + 32 as char else s[i])
  }

  predicate Matches(env: Env, data: Bytes, item: Item) {
    LowerAscii(env.hash(data)) == LowerAscii(item.sha256)
  }

  /** The right bytes, with a structure that has at least one root. */
  predicate IsValid(env: Env, data: Bytes, item: Item) {
    Matches(env, data, item) && Parse(env.std, data).Ok? && Parse(env.std, data).value.roots != []
  }

  function TargetOf(item: Item, isPlanet: bool): Path {
    if isPlanet then Planet else Moon(item.name)
  }

  function CopiedTo(files: Files, from: Path, to: Path, works: bool): Files {
    if from in files && works then files[to := files[from]] else files
  }

  predicate IsCurrent(env: Env, files: Files, item: Item, isPlanet: bool, o: Outcome) {
    TargetOf(item, isPlanet) in files && o.readable && Matches(env, files[TargetOf(item, isPlanet)], item)
  }

  /** Files after one item, and whether its target was replaced; `Err` when any stage fails. */
  function AssetSynced(env: Env, files: Files, item: Item, isPlanet: bool, o: Outcome): (Files, Result<bool>) {
    var target := TargetOf(item, isPlanet);
    if IsCurrent(env, files, item, isPlanet, o) then (files, Ok(false))
    else if o.download == None || !IsValid(env, o.download.value, item) || !o.written then (files, Err)
    else
      var backedUp := CopiedTo(files[Staged(item.name) := o.download.value], target, Backup(item.name), o.copied);
      if !o.renamed then (backedUp, Err)
      else ((backedUp - {Staged(item.name)})[target := o.download.value], Ok(true))
  }

  /** Files, number of replaced targets, and whether an item failed, which ends the loop. */
  datatype Progress = Progress(files: Files, synced: nat, failed: bool)

  function Advanced(env: Env, p: Progress, item: Item, isPlanet: bool, o: Outcome): Progress {
    if p.failed then p
    else
      var (files, r) := AssetSynced(env, p.files, item, isPlanet, o);
      Progress(files, p.synced + (if r == Ok(true) then 1 else 0), r.Err?)
  }

  function AllSynced(env: Env, p: Progress, items: seq<Item>, isPlanet: bool, os: seq<Outcome>): Progress
    requires |os| == |items|
    decreases |items|
  {
    if items == [] then p
    else AllSynced(env, Advanced(env, p, items[0], isPlanet, os[0]), items[1..], isPlanet, os[1..])
  }

  lemma AllSyncedFrom(env: Env, p: Progress, items: seq<Item>, isPlanet: bool, os: seq<Outcome>, i: nat)
    requires i < |items| == |os|
    ensures AllSynced(env, p, items[i..], isPlanet, os[i..])
         == AllSynced(env, Advanced(env, p, items[i], isPlanet, os[i]), items[i + 1..], isPlanet, os[i + 1..])
  {
    hide Advanced;
    assert items[i..][1..] == items[i + 1..] && os[i..][1..] == os[i + 1..];
  }

  lemma NothingToSync(env: Env, p: Progress, isPlanet: bool)
    ensures AllSynced(env, p, [], isPlanet, []) == p
  {
  }

  /** After a failure nothing else is tried. */
  lemma {:induction false} FailedStops(env: Env, p: Progress, items: seq<Item>, isPlanet: bool, os: seq<Outcome>)
    requires |os| == |items| && p.failed
    ensures AllSynced(env, p, items, isPlanet, os) == p
    decreases |items|
  {
    if items != [] {
      FailedStops(env, p, items[1..], isPlanet, os[1..]);
    }
  }

  function RolledBack(files: Files, works: bool): Files {
    CopiedTo(files, Backup("planet"), Planet, works)
  }

  class SyncProviderClient {
    const env: Env
    const allowAutoRollback: bool
    var files: Files
    var lastEtag: Option<string>
    var lastSummary: Option<Summary>

    constructor (env: Env, allowAutoRollback: bool, files: Files)
      ensures this.env == env && this.allowAutoRollback == allowAutoRollback
      ensures this.files == files && lastEtag == None && lastSummary == None
    {
      this.env, this.allowAutoRollback, this.files := env, allowAutoRollback, files;
      lastEtag, lastSummary := None, None;
    }

    method SyncSingleAsset(item: Item, isPlanet: bool, o: Outcome) returns (r: Result<bool>)
      modifies `files
      ensures (files, r) == AssetSynced(env, old(files), item, isPlanet, o)
    {
      var target := TargetOf(item, isPlanet);
      if target in files {
        if o.readable {
          var existing := files[target];
          if Matches(env, existing, item) {
            return Ok(false);
          }
        }
      }
      if o.download == None {
        return Err;
      }
      var data := o.download.value;
      if !Matches(env, data, item) {
        return Err;
      }
      var world := ParseBinary(env.std, data);
      if world.Err? {
        return Err;
      }
      if world.value.roots == [] {
        return Err;
      }
      if !o.written {
        return Err;
      }
      files := files[Staged(item.name) := data];
      if target in files {
        if o.copied {
          files := files[Backup(item.name) := files[target]];
        }
      }
      if !o.renamed {
        return Err;
      }
      files := (files - {Staged(item.name)})[target := files[Staged(item.name)]];
      r := Ok(true);
    }

    method RollbackPlanet(works: bool) returns (ok: bool)
      modifies `files
      ensures files == RolledBack(old(files), works)
      ensures ok == (Backup("planet") in old(files) && works)
    {
      if Backup("planet") !in files {
        return false;
      }
      if works {
        files := files[Planet := files[Backup("planet")]];
      }
      ok := works;
    }

    method ExecuteSync(fetched: Fetched, dirs: bool, c: Cycle) returns (r: Result<Summary>)
      requires IsCycleFor(fetched, c)
      modifies this
      ensures Store(files, lastEtag)
           == Executed(env, allowAutoRollback, Store(old(files), old(lastEtag)), fetched, dirs, c)
      ensures r.Ok? <==> fetched.NotModified? || Succeeds(env, old(files), fetched, dirs, c)
      ensures fetched.FetchFailed? ==> lastSummary == Some(Summary(Failed, 0, 0, None))
      ensures r.Ok? ==> lastSummary == Some(r.value)
      ensures fetched.Fetched? && r.Err? ==> lastSummary == old(lastSummary)
      ensures fetched.NotModified? ==> r == Ok(Summary(Unchanged, 0, 0, old(lastEtag)))
      ensures fetched.Fetched? && r.Ok? ==>
        var planets := PlanetsSynced(env, old(files), fetched.manifest, c);
        var moons := MoonsSynced(env, old(files), fetched.manifest, c);
        r.value == Summary(Synced, planets.synced, moons.synced, fetched.etag)
    {
      hide AssetSynced, AllSynced;
      if fetched.FetchFailed? {
        lastSummary := Some(Summary(Failed, 0, 0, None));
        return Err;
      }
      if fetched.NotModified? {
        var summary := Summary(Unchanged, 0, 0, lastEtag);
        lastSummary := Some(summary);
        return Ok(summary);
      }
      if !dirs {
        return Err;
      }
      var items, planets, moons := fetched.manifest.planets, 0, 0;
      for i := 0 to |items|
        invariant AllSynced(env, Progress(files, planets, false), items[i..], true, c.planets[i..])
               == PlanetsSynced(env, old(files), fetched.manifest, c)
        invariant lastEtag == old(lastEtag) && lastSummary == old(lastSummary)
      {
        AllSyncedFrom(env, Progress(files, planets, false), items, true, c.planets, i);
        ghost var next := Advanced(env, Progress(files, planets, false), items[i], true, c.planets[i]);
        var synced := SyncSingleAsset(items[i], true, c.planets[i]);
        match synced {
          case Ok(replaced) =>
            planets := planets + (if replaced then 1 else 0);
          case Err =>
            FailedStops(env, next, items[i + 1..], true, c.planets[i + 1..]);
            if allowAutoRollback {
              var _ := RollbackPlanet(c.rollback);
            }
            return Err;
        }
      }
      NothingToSync(env, Progress(files, planets, false), true);
      items := fetched.manifest.moons;
      for i := 0 to |items|
        invariant AllSynced(env, Progress(files, moons, false), items[i..], false, c.moons[i..])
               == MoonsSynced(env, old(files), fetched.manifest, c)
        invariant lastEtag == old(lastEtag) && lastSummary == old(lastSummary)
      {
        AllSyncedFrom(env, Progress(files, moons, false), items, false, c.moons, i);
        ghost var next := Advanced(env, Progress(files, moons, false), items[i], false, c.moons[i]);
        var synced := SyncSingleAsset(items[i], false, c.moons[i]);
        match synced {
          case Ok(replaced) =>
            moons := moons + (if replaced then 1 else 0);
          case Err =>
            FailedStops(env, next, items[i + 1..], false, c.moons[i + 1..]);
            return Err;
        }
      }
      NothingToSync(env, Progress(files, moons, false), false);
      if fetched.etag.Some? {
        lastEtag := fetched.etag;
      }
      var summary := Summary(Synced, planets, moons, fetched.etag);
      lastSummary := Some(summary);
      r := Ok(summary);
    }
  }

  // ----- Cycles ---------------------------------------------------------------------------------

  /** The outcomes that the items of a manifest meet, and whether a rollback's copy works. */
  datatype Cycle = Cycle(planets: seq<Outcome>, moons: seq<Outcome>, rollback: bool)

  predicate IsCycleFor(fetched: Fetched, c: Cycle) {
    fetched.Fetched? ==> |c.planets| == |fetched.manifest.planets| && |c.moons| == |fetched.manifest.moons|
  }

  datatype Store = Store(files: Files, etag: Option<string>)

  function PlanetsSynced(env: Env, files: Files, m: Manifest, c: Cycle): Progress
    requires |c.planets| == |m.planets|
  {
    AllSynced(env, Progress(files, 0, false), m.planets, true, c.planets)
  }

  function MoonsSynced(env: Env, files: Files, m: Manifest, c: Cycle): Progress
    requires |c.planets| == |m.planets| && |c.moons| == |m.moons|
  {
    AllSynced(env, Progress(PlanetsSynced(env, files, m, c).files, 0, false), m.moons, false, c.moons)
  }

  /** Every item of a fetched manifest was up to date or replaced. */
  predicate Succeeds(env: Env, files: Files, fetched: Fetched, dirs: bool, c: Cycle)
    requires IsCycleFor(fetched, c)
  {
    && fetched.Fetched? && dirs
    && !PlanetsSynced(env, files, fetched.manifest, c).failed && !MoonsSynced(env, files, fetched.manifest, c).failed
  }

  function Executed(env: Env, rollback: bool, s: Store, fetched: Fetched, dirs: bool, c: Cycle): Store
    requires IsCycleFor(fetched, c)
  {
    if !fetched.Fetched? || !dirs then s
    else
      var planets := PlanetsSynced(env, s.files, fetched.manifest, c);
      var moons := MoonsSynced(env, s.files, fetched.manifest, c);
      if planets.failed then s.(files := if rollback then RolledBack(planets.files, c.rollback) else planets.files)
      else Store(moons.files, if moons.failed || fetched.etag == None then s.etag else fetched.etag)
  }
}
