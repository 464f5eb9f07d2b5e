/** The provisioning sequence once the release is known: publish the outputs, then skip,
    restore from cache, or fetch and run the installer and save the result to the cache. */
module Provisioning {
  import opened Wrappers
  import opened CacheInput
  import opened Resolver
  import opened Identifiers

  /** What a run does to the outside world, in the order it does it. */
  datatype Action =
    | Warn(message: string)
    | RequestRedirect(url: string)
    | SetOutput(name: string, value: string)
    | RestoreCache(paths: seq<string>, key: string)
    | Download(filename: string, url: string)
    | RunInstaller(command: string)
    | SaveCache(paths: seq<string>, key: string)

  /** The actions that provision the install directory. */
  predicate IsInstallStep(a: Action)
  {
    a.RestoreCache? || a.Download? || a.RunInstaller? || a.SaveCache?
  }

  /** How a successful run ended. */
  datatype Outcome = AlreadyPresent | RestoredFromCache | Installed(downloaded: bool)

  /** The answers the outside world gives during the sequence: whether the install directory
      exists, whether the cache restore found an entry, whether the installer file is already
      in the working directory, whether its download succeeds and whether the installer exits
      with status zero. */
  datatype Probe = Probe(homeExists: bool, restoreHit: bool, installerExists: bool, downloadOk: bool, installerOk: bool)

  datatype Report = Report(trace: seq<Action>, result: Result<Outcome, Error>)

  function Publish(version: string, date: string, home: string): seq<Action>
  {
    [SetOutput("rhino-version", version), SetOutput("rhino-version-date", date), SetOutput("rhino-home", home)]
  }

  /** The installer runs in package mode, without prompts, without a reboot and with automatic updates off. */
  function InstallCommand(filename: string): string
  {
    "\"" + filename + "\" -package -passive -norestart ENABLE_AUTOMATIC_UPDATES=0"
  }

  /** At most one action: `[a]` when `b` holds, nothing otherwise. */
  function Opt(b: bool, a: Action): seq<Action>
  {
    if b then [a] else []
  }

  /** The restore step is reached: the install directory is missing and restoring is on. */
  predicate Restores(flags: Flags, probe: Probe)
  {
    !probe.homeExists && flags.restore
  }

  /** The installer stage is reached: the directory is missing and no cache entry was restored. */
  predicate ReachesInstaller(flags: Flags, probe: Probe)
  {
    !probe.homeExists && !(flags.restore && probe.restoreHit)
  }

  /** The installer is downloaded: the installer stage is reached and the file is absent. */
  predicate Downloads(flags: Flags, probe: Probe)
  {
    ReachesInstaller(flags, probe) && !probe.installerExists
  }

  /** The installer runs: the installer stage is reached and the file is present or was fetched. */
  predicate RunsInstaller(flags: Flags, probe: Probe)
  {
    ReachesInstaller(flags, probe) && (probe.installerExists || probe.downloadOk)
  }

  /** The cache is saved: the installer ran, exited with status zero, and saving is on. */
  predicate Saves(flags: Flags, probe: Probe)
  {
    RunsInstaller(flags, probe) && probe.installerOk && flags.save
  }

  /** How the sequence ends, given the answers of `probe`. */
  function Ending(r: Release, flags: Flags, probe: Probe): Result<Outcome, Error>
  {
    if probe.homeExists then Ok(AlreadyPresent)
    else if flags.restore && probe.restoreHit then Ok(RestoredFromCache)
    else if !probe.installerExists && !probe.downloadOk then Err(DownloadFailed(r.url))
    else if !probe.installerOk then Err(InstallerFailed(r.filename))
    else Ok(Installed(!probe.installerExists))
  }

  /** The sequence as a table: the outputs, then each step that is reached, in order. */
  function Sequence(r: Release, home: string, flags: Flags, probe: Probe): Report
  {
    var key := CacheKey(r.version, r.date);
    Report(
      Publish(r.version, r.date, home)
        + Opt(Restores(flags, probe), RestoreCache([home], key))
        + Opt(Downloads(flags, probe), Download(r.filename, r.url))
        + Opt(RunsInstaller(flags, probe), RunInstaller(InstallCommand(r.filename)))
        + Opt(Saves(flags, probe), SaveCache([home], key)),
      Ending(r, flags, probe))
  }

  /** The sequence step by step, as the action runs it. */
  method Provision(r: Release, home: string, flags: Flags, probe: Probe) returns (trace: seq<Action>, result: Result<Outcome, Error>)
    ensures Report(trace, result) == Sequence(r, home, flags, probe)
  {
    ghost var key := CacheKey(r.version, r.date);
    ghost var restore := Opt(Restores(flags, probe), RestoreCache([home], key));
    ghost var fetch := Opt(Downloads(flags, probe), Download(r.filename, r.url));
    ghost var run := Opt(RunsInstaller(flags, probe), RunInstaller(InstallCommand(r.filename)));
    ghost var save := Opt(Saves(flags, probe), SaveCache([home], key));
    assert Sequence(r, home, flags, probe).trace == Publish(r.version, r.date, home) + restore + fetch + run + save;
    trace := [];
    trace := trace + [SetOutput("rhino-version", r.version)];
    trace := trace + [SetOutput("rhino-version-date", r.date)];
    trace := trace + [SetOutput("rhino-home", home)];
    assert trace == Publish(r.version, r.date, home);
    if probe.homeExists {
      result := Ok(AlreadyPresent);
      assert trace == trace + restore + fetch + run + save;
      return;
    }
    var cachedPaths := [home];
    var cacheKey := CacheKey(r.version, r.date);
    var cacheWasRestored := false;
    if flags.restore {
      trace := trace + [RestoreCache(cachedPaths, cacheKey)];
      if probe.restoreHit {
        cacheWasRestored := true;
      }
    }
    ghost var restored := trace;
    assert restored == Publish(r.version, r.date, home) + restore;
    if cacheWasRestored {
      result := Ok(RestoredFromCache);
      assert trace == restored + fetch + run + save;
      return;
    }
    var downloaded := false;
    if !probe.installerExists {
      trace := trace + [Download(r.filename, r.url)];
      if !probe.downloadOk {
        result := Err(DownloadFailed(r.url));
        assert trace == restored + fetch + run + save;
        return;
      }
      downloaded := true;
    }
    assert trace == restored + fetch;
    trace := trace + [RunInstaller(InstallCommand(r.filename))];
    assert trace == restored + fetch + run;
    if !probe.installerOk {
      result := Err(InstallerFailed(r.filename));
      assert trace == restored + fetch + run + save;
      return;
    }
    if flags.save {
      trace := trace + [SaveCache(cachedPaths, cacheKey)];
    }
    assert trace == restored + fetch + run + save;
    result := Ok(Installed(downloaded));
  }

  /** The three outputs open every sequence, and all that follows them provisions. */
  lemma OutputsComeFirst(r: Release, home: string, flags: Flags, probe: Probe)
    ensures var t := Sequence(r, home, flags, probe).trace;
      && |t| >= 3 && t[..3] == Publish(r.version, r.date, home)
      && forall i :: 3 <= i < |t| ==> IsInstallStep(t[i])
  {
  }

  /** An existing install directory ends the sequence right after the outputs. */
  lemma PresentSkipsEverything(r: Release, home: string, flags: Flags, probe: Probe)
    requires probe.homeExists
    ensures var rep := Sequence(r, home, flags, probe);
      && rep.result == Ok(AlreadyPresent)
      && forall i :: 0 <= i < |rep.trace| ==> !IsInstallStep(rep.trace[i])
  {
  }

  /** A restore is attempted exactly when the directory is missing and restoring is enabled,
      and then under the cache key of the release, for the install directory alone. */
  lemma RestoreAttemptedExactly(r: Release, home: string, flags: Flags, probe: Probe)
    ensures var t := Sequence(r, home, flags, probe).trace;
      && ((exists i :: 0 <= i < |t| && t[i].RestoreCache?) <==> !probe.homeExists && flags.restore)
      && forall i :: 0 <= i < |t| && t[i].RestoreCache? ==> t[i] == RestoreCache([home], CacheKey(r.version, r.date))
  {
    var t := Sequence(r, home, flags, probe).trace;
    if !probe.homeExists && flags.restore {
      assert t[3].RestoreCache?;
    }
  }

  /** A cache hit ends the sequence: nothing is downloaded, run or saved. */
  lemma RestoreHitSkipsInstall(r: Release, home: string, flags: Flags, probe: Probe)
    requires !probe.homeExists && flags.restore && probe.restoreHit
    ensures var rep := Sequence(r, home, flags, probe);
      && rep.result == Ok(RestoredFromCache)
      && forall i :: 0 <= i < |rep.trace| ==> !(rep.trace[i].Download? || rep.trace[i].RunInstaller? || rep.trace[i].SaveCache?)
  {
  }

  /** The installer is downloaded exactly when the sequence reaches the installer step and
      the installer file is not already present, always from the release's URL to its file
      name; the download precedes every installer run. */
  lemma DownloadExactlyWhenAbsent(r: Release, home: string, flags: Flags, probe: Probe)
    ensures var t := Sequence(r, home, flags, probe).trace;
      && ((exists i :: 0 <= i < |t| && t[i].Download?) <==>
            !probe.homeExists && !(flags.restore && probe.restoreHit) && !probe.installerExists)
      && (forall i :: 0 <= i < |t| && t[i].Download? ==> t[i] == Download(r.filename, r.url))
      && forall i, j :: 0 <= i < |t| && 0 <= j < |t| && t[i].Download? && t[j].RunInstaller? ==> i < j
  {
    var t := Sequence(r, home, flags, probe).trace;
    if !probe.homeExists && !(flags.restore && probe.restoreHit) && !probe.installerExists {
      var k := if flags.restore then 4 else 3;
      assert t[k].Download?;
    }
  }

  /** Unless the sequence stopped earlier, the installer always runs, once the installer
      file is present or its download succeeded. */
  lemma InstallerRunsUnlessShortCircuited(r: Release, home: string, flags: Flags, probe: Probe)
    ensures var t := Sequence(r, home, flags, probe).trace;
      (exists i :: 0 <= i < |t| && t[i].RunInstaller?) <==>
        !probe.homeExists && !(flags.restore && probe.restoreHit) && (probe.installerExists || probe.downloadOk)
  {
    var t := Sequence(r, home, flags, probe).trace;
    if !probe.homeExists && !(flags.restore && probe.restoreHit) && (probe.installerExists || probe.downloadOk) {
      var k := 3 + (if flags.restore then 1 else 0) + (if probe.installerExists then 0 else 1);
      assert t[k].RunInstaller?;
    }
  }

  /** A save happens only when saving is enabled, only after the installer ran and exited
      with status zero, and then always; it is the last action. */
  lemma SaveOnlyAfterSuccessfulInstall(r: Release, home: string, flags: Flags, probe: Probe)
    ensures var rep := Sequence(r, home, flags, probe);
      var t := rep.trace;
      && (forall i :: 0 <= i < |t| && t[i].SaveCache? ==>
            && flags.save && rep.result.Ok? && i == |t| - 1
            && t[i] == SaveCache([home], CacheKey(r.version, r.date))
            && exists j :: 0 <= j < i && t[j].RunInstaller?)
      && ((exists i :: 0 <= i < |t| && t[i].SaveCache?) <==>
            && !probe.homeExists && !(flags.restore && probe.restoreHit)
            && (probe.installerExists || probe.downloadOk) && probe.installerOk && flags.save)
  {
    var t := Sequence(r, home, flags, probe).trace;
    if !probe.homeExists && !(flags.restore && probe.restoreHit) && (probe.installerExists || probe.downloadOk) {
      var k := 3 + (if flags.restore then 1 else 0) + (if probe.installerExists then 0 else 1);
      assert t[k].RunInstaller?;
      if probe.installerOk && flags.save {
        assert t[k + 1].SaveCache?;
      }
    }
  }

  /** The outcome says which way the sequence went. */
  lemma OutcomeMatchesPath(r: Release, home: string, flags: Flags, probe: Probe)
    ensures var res := Sequence(r, home, flags, probe).result;
      && (res == Ok(AlreadyPresent) <==> probe.homeExists)
      && (res == Ok(RestoredFromCache) <==> !probe.homeExists && flags.restore && probe.restoreHit)
      && (res.Ok? && res.value.Installed? ==> res.value.downloaded == !probe.installerExists)
      && (res.Err? <==> !probe.homeExists && !(flags.restore && probe.restoreHit)
                        && ((!probe.installerExists && !probe.downloadOk) || !probe.installerOk))
  {
  }
}
