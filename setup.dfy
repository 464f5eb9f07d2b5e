/** One run of the action from its inputs: platform check, cache switches, version
    resolution, the install directory, and the provisioning sequence. */
module Setup {
  import opened Wrappers
  import opened Text
  import opened CacheInput
  import opened Patterns
  import opened Resolver
  import opened Identifiers
  import opened Provisioning

  /** The action's inputs: `cache`, `rhino-version`, `rhino-version-date` and `email`. */
  datatype Inputs = Inputs(cache: string, selectedVersion: string, versionDate: string, email: string)

  /** What the outside world answers: the host platform, whether the cache service is
      available, the redirect endpoint's answer, and the answers during provisioning. */
  datatype World = World(platform: string, cacheAvailable: bool, redirect: Redirect, probe: Probe)

  /** The warning printed to standard error, warning sign included. */
  const CacheWarning: string := "\U{26A0}\U{FE0F} cache was enabled, but cache service is not available in this runner"

  /** The install directory for a release, " WIP" added when the selected version is "wip". */
  function HomeFor(r: Release, selected: string): string
  {
    InstallPath(MajorVersion(r.version), selected == "wip")
  }

  /** The cache warning, when caching is enabled but the service is unavailable. */
  function Warnings(flags: Flags, cacheAvailable: bool): seq<Action>
  {
    if WarnsUnavailable(flags, cacheAvailable) then [Warn(CacheWarning)] else []
  }

  /** The request to the redirect endpoint, when resolution makes one. */
  function Asked(res: Resolution): seq<Action>
  {
    if res.requested.Some? then [RequestRedirect(res.requested.value)] else []
  }

  /** What follows the cache warning: the request of a floating run, and then the resolution
      error or the provisioning sequence of the resolved release. */
  function Proceed(inputs: Inputs, flags: Flags, redirect: Redirect, probe: Probe): Report
  {
    var res := Resolve(inputs.selectedVersion, inputs.versionDate, inputs.email, redirect);
    match res.release
    case Err(e) => Report(Asked(res), Err(e))
    case Ok(r) =>
      var rep := Sequence(r, HomeFor(r, inputs.selectedVersion), flags, probe);
      Report(Asked(res) + rep.trace, rep.result)
  }

  /** The whole run as a function of its inputs and the world's answers: off Windows an
      immediate failure; otherwise the cache warning, then the rest of the run. */
  function Behaviour(inputs: Inputs, world: World): Report
  {
    if world.platform != "win32" then Report([], Err(UnsupportedPlatform(world.platform)))
    else
      var flags := ParseCache(inputs.cache);
      var rest := Proceed(inputs, flags, world.redirect, world.probe);
      Report(Warnings(flags, world.cacheAvailable) + rest.trace, rest.result)
  }

  /** The resolution part of the run: in floating mode the request to the redirect endpoint,
      then the release or the error that stops the run. */
  method ResolveRelease(inputs: Inputs, redirect: Redirect) returns (asked: seq<Action>, release: Result<Release, Error>)
    ensures var res := Resolve(inputs.selectedVersion, inputs.versionDate, inputs.email, redirect);
      asked == Asked(res) && release == res.release
  {
    asked := [];
    var selectedVersion := inputs.selectedVersion;
    var plan := PlanRelease(selectedVersion, inputs.versionDate, inputs.email);
    if plan.Err? {
      release := Err(plan.error);
      return;
    }
    if inputs.versionDate != "" {
      var version := selectedVersion;
      var date := inputs.versionDate;
      var installerFilename := PinnedFilename(version);
      var installerUrl := PinnedUrl(date, installerFilename);
      release := Ok(Release(version, date, installerFilename, installerUrl));
    } else {
      asked := asked + [RequestRedirect(LookupEndpoint(selectedVersion, inputs.email))];
      release := FromRedirect(redirect);
    }
  }

  /** The install directory step by step: the prefix and the major version, then " WIP". */
  method InstallDirectory(release: Release, selectedVersion: string) returns (rhinoHome: string)
    ensures rhinoHome == HomeFor(release, selectedVersion)
  {
    var majorVersion := MajorVersion(release.version);
    rhinoHome := HomePrefix + majorVersion;
    if selectedVersion == "wip" {
      rhinoHome := rhinoHome + WipSuffix;
    }
  }

  /** The run step by step, reassigning its locals as it goes. */
  method Run(inputs: Inputs, world: World) returns (trace: seq<Action>, result: Result<Outcome, Error>)
    ensures Report(trace, result) == Behaviour(inputs, world)
  {
    trace := [];
    if world.platform != "win32" {
      result := Err(UnsupportedPlatform(world.platform));
      return;
    }
    var flags := ParseCache(inputs.cache);
    if (flags.save || flags.restore) && !world.cacheAvailable {
      trace := trace + [Warn(CacheWarning)];
    }
    assert trace == Warnings(flags, world.cacheAvailable);
    BehaviourShape(inputs, world);
    var asked, resolved := ResolveRelease(inputs, world.redirect);
    trace := trace + asked;
    if resolved.Err? {
      result := Err(resolved.error);
      return;
    }
    var release := resolved.value;
    var rhinoHome := InstallDirectory(release, inputs.selectedVersion);
    var steps;
    steps, result := Provision(release, rhinoHome, flags, world.probe);
    trace := trace + steps;
  }

  /** On Windows the run is the warning and the request, then the error or the sequence. */
  lemma BehaviourShape(inputs: Inputs, world: World)
    requires world.platform == "win32"
    ensures var flags := ParseCache(inputs.cache);
      var res := Resolve(inputs.selectedVersion, inputs.versionDate, inputs.email, world.redirect);
      var front := Warnings(flags, world.cacheAvailable) + Asked(res);
      var rep := Behaviour(inputs, world);
      && (res.release.Err? ==> rep == Report(front, Err(res.release.error)))
      && (res.release.Ok? ==>
            var r := res.release.value;
            var s := Sequence(r, HomeFor(r, inputs.selectedVersion), flags, world.probe);
            rep == Report(front + s.trace, s.result))
  {
    var flags := ParseCache(inputs.cache);
    var res := Resolve(inputs.selectedVersion, inputs.versionDate, inputs.email, world.redirect);
    if res.release.Ok? {
      var r := res.release.value;
      var s := Sequence(r, HomeFor(r, inputs.selectedVersion), flags, world.probe);
      AppendAssociates(Warnings(flags, world.cacheAvailable), Asked(res), s.trace);
    }
  }

  /** Concatenation of traces associates; stated apart so that proofs about whole runs need not
      unfold the traces to see it. */
  lemma AppendAssociates(a: seq<Action>, b: seq<Action>, c: seq<Action>)
    ensures (a + b) + c == a + (b + c)
  {
  }

  /** Off Windows the run fails at once, before anything else happens. */
  lemma OnlyWindows(inputs: Inputs, world: World)
    requires world.platform != "win32"
    ensures Behaviour(inputs, world) == Report([], Err(UnsupportedPlatform(world.platform)))
  {
  }

  /** An unavailable cache service with caching enabled adds one warning in front and
      changes nothing else: the run is not aborted. */
  lemma UnavailableCacheOnlyWarns(inputs: Inputs, world: World)
    requires world.platform == "win32"
    ensures var up := Behaviour(inputs, world.(cacheAvailable := true));
      var down := Behaviour(inputs, world.(cacheAvailable := false));
      var flags := ParseCache(inputs.cache);
      && down.result == up.result
      && down.trace == (if flags.save || flags.restore then [Warn(CacheWarning)] else []) + up.trace
  {
    var flags := ParseCache(inputs.cache);
    var rest := Proceed(inputs, flags, world.redirect, world.probe);
    assert Warnings(flags, true) == [];
    assert [] + rest.trace == rest.trace;
  }

  /** No action is a request to the redirect endpoint. */
  predicate NoRequest(t: seq<Action>)
  {
    forall i :: 0 <= i < |t| ==> !t[i].RequestRedirect?
  }

  /** Every action is a warning. */
  predicate OnlyWarnings(t: seq<Action>)
  {
    forall i :: 0 <= i < |t| ==> t[i].Warn?
  }

  /** Every download is `d`. */
  predicate DownloadsOnly(t: seq<Action>, d: Action)
  {
    forall i :: 0 <= i < |t| && t[i].Download? ==> t[i] == d
  }

  /** Only the action at index `k` is a request to the redirect endpoint. */
  predicate RequestsOnlyAt(t: seq<Action>, k: int)
  {
    forall i :: 0 <= i < |t| && i != k ==> !t[i].RequestRedirect?
  }

  /** No output is set after a provisioning step. */
  predicate OutputsBeforeSteps(t: seq<Action>)
  {
    forall i, j :: 0 <= i < |t| && 0 <= j < |t| && t[i].SetOutput? && IsInstallStep(t[j]) ==> i < j
  }

  /** The cache warning is a warning and nothing else. */
  lemma WarningsAreWarnings(flags: Flags, cacheAvailable: bool)
    ensures var w := Warnings(flags, cacheAvailable);
      && |w| == (if WarnsUnavailable(flags, cacheAvailable) then 1 else 0)
      && OnlyWarnings(w) && NoRequest(w)
  {
  }

  /** The sequence of a release sets its outputs first and then only provisions; it never
      asks the redirect endpoint. */
  lemma SequenceSteps(r: Release, home: string, flags: Flags, probe: Probe)
    ensures var t := Sequence(r, home, flags, probe).trace;
      && OutputsBeforeSteps(t)
      && NoRequest(t)
      && forall i :: 0 <= i < |t| ==> t[i].SetOutput? || IsInstallStep(t[i])
  {
    OutputsComeFirst(r, home, flags, probe);
    var t := Sequence(r, home, flags, probe).trace;
    forall i | 0 <= i < 3
      ensures t[i].SetOutput?
    {
      assert t[i] == t[..3][i];
    }
  }

  /** Traces without requests concatenate to one. */
  lemma NoRequestConcat(a: seq<Action>, b: seq<Action>)
    requires NoRequest(a) && NoRequest(b)
    ensures NoRequest(a + b)
  {
    forall i | 0 <= i < |a + b|
      ensures !(a + b)[i].RequestRedirect?
    {
      if i >= |a| {
        assert (a + b)[i] == b[i - |a|];
      }
    }
  }

  /** Traces whose downloads are all `d` concatenate to one. */
  lemma DownloadsOnlyConcat(a: seq<Action>, b: seq<Action>, d: Action)
    requires DownloadsOnly(a, d) && DownloadsOnly(b, d)
    ensures DownloadsOnly(a + b, d)
  {
    forall i | 0 <= i < |a + b| && (a + b)[i].Download?
      ensures (a + b)[i] == d
    {
      if i >= |a| {
        assert (a + b)[i] == b[i - |a|];
      }
    }
  }

  /** Behind a prefix of warnings, a request followed by no other keeps its place. */
  lemma RequestAfterWarnings(w: seq<Action>, ask: Action, t: seq<Action>)
    requires OnlyWarnings(w) && ask.RequestRedirect? && NoRequest(t)
    ensures var u := w + [ask] + t;
      |u| > |w| && u[|w|] == ask && RequestsOnlyAt(u, |w|)
  {
    var u := w + [ask] + t;
    forall i | 0 <= i < |u| && i != |w|
      ensures !u[i].RequestRedirect?
    {
      if i < |w| {
        assert u[i] == w[i];
      } else {
        assert u[i] == t[i - |w| - 1];
      }
    }
  }

  /** A prefix that neither sets outputs nor provisions keeps outputs before steps. */
  lemma OutputsBeforeStepsAfterPrefix(a: seq<Action>, b: seq<Action>)
    requires forall i :: 0 <= i < |a| ==> !a[i].SetOutput? && !IsInstallStep(a[i])
    requires OutputsBeforeSteps(b)
    ensures OutputsBeforeSteps(a + b)
  {
    var t := a + b;
    forall i, j | 0 <= i < |t| && 0 <= j < |t| && t[i].SetOutput? && IsInstallStep(t[j])
      ensures i < j
    {
      assert i >= |a| && j >= |a|;
      assert t[i] == b[i - |a|] && t[j] == b[j - |a|];
    }
  }

  /** A pinned run never asks the redirect endpoint; it fails with `InvalidFullVersion` exactly
      when the version does not match `^\d+\.[0-9.]+$`, and then before publishing anything;
      otherwise it installs from the fixed URL built from the version and the date as given. */
  lemma PinnedRun(inputs: Inputs, world: World)
    requires world.platform == "win32" && inputs.versionDate != ""
    ensures var rep := Behaviour(inputs, world);
      var name := PinnedFilename(inputs.selectedVersion);
      && NoRequest(rep.trace)
      && (rep.result == Err(InvalidFullVersion(inputs.selectedVersion)) <==> !FullVersionPattern(inputs.selectedVersion))
      && (!FullVersionPattern(inputs.selectedVersion) ==> OnlyWarnings(rep.trace))
      && DownloadsOnly(rep.trace, Download(name, PinnedUrl(inputs.versionDate, name)))
  {
    var sel := inputs.selectedVersion;
    var flags := ParseCache(inputs.cache);
    var name := PinnedFilename(sel);
    var download := Download(name, PinnedUrl(inputs.versionDate, name));
    BehaviourShape(inputs, world);
    PinnedPlanExactly(sel, inputs.versionDate, inputs.email);
    WarningsAreWarnings(flags, world.cacheAvailable);
    var w := Warnings(flags, world.cacheAvailable);
    var res := Resolve(sel, inputs.versionDate, inputs.email, world.redirect);
    assert res.requested.None?;
    assert w + Asked(res) == w;
    assert DownloadsOnly(w, download);
    if res.release.Ok? {
      var r := res.release.value;
      var home := HomeFor(r, sel);
      OutcomeMatchesPath(r, home, flags, world.probe);
      SequenceSteps(r, home, flags, world.probe);
      DownloadExactlyWhenAbsent(r, home, flags, world.probe);
      var t := Sequence(r, home, flags, world.probe).trace;
      NoRequestConcat(w, t);
      DownloadsOnlyConcat(w, t, download);
    }
  }

  /** A floating run with a channel that is neither all digits nor "wip" fails before any
      request to the redirect endpoint. */
  lemma BadChannelFailsBeforeRequest(inputs: Inputs, world: World)
    requires world.platform == "win32" && inputs.versionDate == ""
    requires !(|inputs.selectedVersion| > 0 && IsDigits(inputs.selectedVersion)) && inputs.selectedVersion != "wip"
    ensures var rep := Behaviour(inputs, world);
      rep.result == Err(UnknownSelectedVersion(inputs.selectedVersion)) && OnlyWarnings(rep.trace)
  {
    var flags := ParseCache(inputs.cache);
    BehaviourShape(inputs, world);
    FloatingPlanExactly(inputs.selectedVersion, inputs.email);
    WarningsAreWarnings(flags, world.cacheAvailable);
    var w := Warnings(flags, world.cacheAvailable);
    var res := Resolve(inputs.selectedVersion, inputs.versionDate, inputs.email, world.redirect);
    assert res.requested.None?;
    assert w + Asked(res) == w;
  }

  /** A floating run with a valid channel asks the redirect endpoint exactly once, before
      anything but the cache warning; an answer other than 302 fails the run with that status
      before any output or provisioning step. */
  lemma FloatingRequestsOnce(inputs: Inputs, world: World)
    requires world.platform == "win32" && inputs.versionDate == ""
    requires (|inputs.selectedVersion| > 0 && IsDigits(inputs.selectedVersion)) || inputs.selectedVersion == "wip"
    ensures var rep := Behaviour(inputs, world);
      var w := if WarnsUnavailable(ParseCache(inputs.cache), world.cacheAvailable) then 1 else 0;
      && |rep.trace| > w
      && rep.trace[w] == RequestRedirect(LookupEndpoint(inputs.selectedVersion, inputs.email))
      && RequestsOnlyAt(rep.trace, w)
      && (world.redirect.status != 302 ==>
            rep.result == Err(UnexpectedStatus(world.redirect.status)) && |rep.trace| == w + 1)
  {
    var sel := inputs.selectedVersion;
    var flags := ParseCache(inputs.cache);
    BehaviourShape(inputs, world);
    WarningsAreWarnings(flags, world.cacheAvailable);
    var w := Warnings(flags, world.cacheAvailable);
    var res := Resolve(sel, inputs.versionDate, inputs.email, world.redirect);
    var ask := RequestRedirect(LookupEndpoint(sel, inputs.email));
    assert res.requested == Some(LookupEndpoint(sel, inputs.email));
    assert res.release == FromRedirect(world.redirect);
    assert Asked(res) == [ask];
    if res.release.Ok? {
      var r := res.release.value;
      var home := HomeFor(r, sel);
      SequenceSteps(r, home, flags, world.probe);
      RequestAfterWarnings(w, ask, Sequence(r, home, flags, world.probe).trace);
    } else {
      RequestAfterWarnings(w, ask, []);
      assert w + [ask] + [] == w + [ask];
    }
  }

  /** After the warning, the rest of a run sets no output after a provisioning step. */
  lemma ProceedOutputsBeforeSteps(inputs: Inputs, flags: Flags, redirect: Redirect, probe: Probe)
    ensures OutputsBeforeSteps(Proceed(inputs, flags, redirect, probe).trace)
  {
    var res := Resolve(inputs.selectedVersion, inputs.versionDate, inputs.email, redirect);
    var asked := Asked(res);
    assert forall i :: 0 <= i < |asked| ==> asked[i].RequestRedirect?;
    if res.release.Ok? {
      var r := res.release.value;
      var home := HomeFor(r, inputs.selectedVersion);
      SequenceSteps(r, home, flags, probe);
      OutputsBeforeStepsAfterPrefix(asked, Sequence(r, home, flags, probe).trace);
    }
  }

  /** Once resolved, the run publishes the version, the date and the install directory
      before any provisioning step; a pinned run of "wip" never gets that far, as it fails
      the version check. */
  lemma HomeAndOutputs(inputs: Inputs, world: World)
    requires world.platform == "win32"
    ensures OutputsBeforeSteps(Behaviour(inputs, world).trace)
    ensures inputs.selectedVersion == "wip" && inputs.versionDate != "" ==>
      Behaviour(inputs, world).result == Err(InvalidFullVersion("wip"))
  {
    var sel := inputs.selectedVersion;
    var flags := ParseCache(inputs.cache);
    var rest := Proceed(inputs, flags, world.redirect, world.probe);
    ProceedOutputsBeforeSteps(inputs, flags, world.redirect, world.probe);
    WarningsAreWarnings(flags, world.cacheAvailable);
    OutputsBeforeStepsAfterPrefix(Warnings(flags, world.cacheAvailable), rest.trace);
    if sel == "wip" && inputs.versionDate != "" {
      WipIsChannelOnly();
      FullVersionMatchesPattern(sel);
      PinnedPlanExactly(sel, inputs.versionDate, inputs.email);
    }
  }

  /** The install directory of every resolved release ends in " WIP" exactly for the "wip" channel,
      and a "wip" directory never coincides with a numbered release's directory. */
  lemma HomeDistinguishesWip(r1: Release, selected1: string, r2: Release, selected2: string)
    requires VersionText(r1.version) && VersionText(r2.version)
    ensures var h := HomeFor(r1, selected1);
      |h| >= 4 && (h[|h| - 4..] == WipSuffix <==> selected1 == "wip")
    ensures selected1 == "wip" && selected2 != "wip" ==> HomeFor(r1, selected1) != HomeFor(r2, selected2)
  {
    VersionTextMajor(r1.version);
    VersionTextMajor(r2.version);
    var m1 := MajorVersion(r1.version);
    var m2 := MajorVersion(r2.version);
    var h := HomeFor(r1, selected1);
    assert h[|h| - 1] == if selected1 == "wip" then 'P' else m1[|m1| - 1];
    if selected1 == "wip" && selected2 != "wip" && HomeFor(r1, selected1) == HomeFor(r2, selected2) {
      InstallPathInjective(m1, true, m2, false);
    }
  }

  /** Cache keys of resolved releases identify the release: equal keys mean the same version and date. */
  lemma ResolvedKeysIdentify(r1: Release, r2: Release)
    requires VersionText(r1.version) && VersionText(r2.version)
    requires CacheKey(r1.version, r1.date) == CacheKey(r2.version, r2.date)
    ensures r1.version == r2.version && r1.date == r2.date
  {
    VersionTextMajor(r1.version);
    VersionTextMajor(r2.version);
    CacheKeyInjective(r1.version, r1.date, r2.version, r2.date);
  }
}
