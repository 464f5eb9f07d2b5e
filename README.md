# setup-rhino3d, modelled in Dafny

`setup-rhino3d` is a GitHub Actions step that installs Rhino 3D on a Windows runner. One run does the following:

1. It reads the `cache`, `rhino-version`, `rhino-version-date` and `email` inputs.
2. It resolves the release to install, in one of two modes:
   - **pinned**: a full version and a date become a fixed download URL;
   - **floating**: the channel is `wip` or a number. The vendor's redirect endpoint is asked for it, and the date, file name and version are read from the URL it redirects to.
3. It derives the install directory, `C:\Program Files\Rhino <major>` with ` WIP` for the `wip` channel, and the cache key `smola-setup-rhino3d-v0-<version>-<date>`.
4. It publishes the version, date and directory as outputs.
5. It provisions the directory. An existing directory ends the run. Otherwise it restores from the cache, or it reuses or downloads the installer, runs it and saves the result to the cache.

The model is one Dafny module per concern:

- `Text`: character classes and string scanners. These are digit runs, the last slash, "text before the first dot", and occurrences of a text at a position.
- `CacheInput`: the `cache` input mapped to save and restore switches.
- `Patterns`: the regular expressions of the resolver.
  - Each extraction pattern and the pinned version check is written twice: as a predicate that reads the pattern literally, and as a matcher that computes the match. Lemmas prove the two agree.
  - The channel check `/^\d+$/` or `wip` is a single predicate, `IsChannel`, read literally from the pattern.
  - Unanchored patterns get JavaScript's leftmost-match semantics, and `\d+` is greedy.
- `Resolver`: pinned and floating resolution and the redirect answer. It also proves that the floating parser reads a pinned URL back into the pinned release.
- `Identifiers`: the major version, the install directory and the cache key, with their injectivity lemmas.
- `Provisioning`: the install sequence.
  - `Sequence` is a table of which actions happen under which answers.
  - `Provision` is the imperative method proved equal to it.
  - Lemmas state the ordering and short-circuit properties.
- `Setup`: the whole of `main`.
  - `Behaviour` is the run as a function of inputs and world answers, with `Run` as the step-by-step method proved equal to it.
  - Lemmas cover the cache warning, pinned runs, floating runs, the install directory and the outputs.
- `Staging`: `download` as a class over a working directory of files.
  - The body streams into `<dest>.tmp`, and that file is renamed to `<dest>` only once the stream has finished.
- `Scenarios`: the channel "8" run redirected to `.../20240115/rhino_en-us_8.6.24015.13001.exe`.

Everything outside the process is a parameter, so the model is deterministic in its inputs:

- the platform;
- whether the cache service is available;
- the redirect endpoint's status and `Location` header;
- whether the install directory exists;
- whether the cache restore hits;
- whether the installer file exists;
- whether the download and the installer succeed;
- the download's body and where it breaks off.

A run's effects are a trace of `Action` values: `Warn`, `RequestRedirect`, `SetOutput`, `RestoreCache`, `Download`, `RunInstaller` and `SaveCache`. A failure is an `Error` value naming its cause.

Behaviour of the code worth noting, which the model keeps:

- The pinned date is not validated.
- The version check is `^\d+\.[0-9.]+$`, which admits trailing or doubled dots. It is not "dot-separated digit groups".
- Outputs are published before the existence check, not at the end.
- `download` does not inspect the HTTP status, so whatever body arrives is staged and renamed.
- A redirect URL that does not match a pattern fails because `.match(...)` returns `null` and indexing it throws. The model turns this into `NoDateInUrl`, `NoFilenameInUrl` or `NoVersionInFilename`.

## Model

| member | source | states |
|---|---|---|
| CacheInput.ParseCache | index.js:39-41 | saving is on exactly for `true` and `save-only`; restoring exactly for `true` |
| CacheInput.RestoreImpliesSave | index.js:40-41 | restore is never enabled without save |
| CacheInput.SaveOnlyAndOthers | index.js:37-41 | `save-only` saves without restoring; any value other than `true` or `save-only` disables both |
| Setup.UnavailableCacheOnlyWarns | index.js:42-49 | with the cache service down, a run whose caching is enabled has one warning more at the front and otherwise the same trace and result; it is not aborted |
| Setup.WarningsAreWarnings | index.js:42-49 | the warning is emitted exactly when caching is enabled and the service is unavailable, and it is only a warning |
| Setup.Behaviour | index.js:27-143 | a run off `win32` fails with `UnsupportedPlatform` and does nothing; on Windows it is the cache warning, if due, followed by `Proceed` |
| Setup.Proceed | index.js:63-140 | after the warning, a run is the resolution request, if made, then either the resolution error or the provisioning sequence of the release into its `HomeFor` directory |
| Setup.OnlyWindows | index.js:28-35 | off `win32` the run fails with `UnsupportedPlatform` before any action |
| Patterns.IsFullVersion | index.js:66 | the greedy matcher for `^\d+\.[0-9.]+$`: a maximal digit run, a dot, then at least one digit or dot up to the end |
| Patterns.IsChannel | index.js:73 | `^\d+$` or `wip` read literally: a non-empty all-digit channel, or exactly `wip` |
| Patterns.FullVersionMatchesPattern | index.js:66 | the greedy matcher accepts exactly the strings `^\d+\.[0-9.]+$` matches |
| Patterns.FullVersionIsVersionText | index.js:66 | an accepted pinned version is digits and dots, starts with a digit and contains a dot |
| Patterns.WipIsChannelOnly | index.js:73 | `wip` is a valid channel and fails the pinned check |
| Resolver.PinnedFilename | index.js:69 | the pinned installer name is `rhino_en-us_<version>.exe` |
| Resolver.PinnedUrl | index.js:70 | the pinned URL is `https://files.mcneel.com/dujour/exe/<date>/<file name>` |
| Resolver.LookupEndpoint | index.js:78 | the redirect endpoint is the `rhino-for-windows/` slug base, the channel, `/latest/&email=` and the email, unencoded |
| Resolver.LookupEndpointInjective | index.js:78 | endpoints of slash-free channels are equal only for the same channel and the same email |
| Resolver.PlanRelease | index.js:63-76 | a non-empty date selects pinned mode, yielding the selected version, or else floating mode with the endpoint built from the channel and email |
| Resolver.PinnedPlanExactly | index.js:63-70 | pinned mode fails, naming the version, exactly when the version does not match `^\d+\.[0-9.]+$`; otherwise the file name is `rhino_en-us_<version>.exe` and the URL is `https://files.mcneel.com/dujour/exe/<date>/<file name>`, with the date as given |
| Resolver.FloatingPlanExactly | index.js:73-75 | floating mode accepts exactly a non-empty all-digits channel or `wip`, and otherwise fails naming it |
| Resolver.FromRedirect | index.js:19-22 | a status other than 302 fails with that status; a 302 without `Location` fails; any release produced came from the 302 target URL |
| Patterns.FirstDateFrom | index.js:80 | the leftmost position at or after `from` where `/dddddddd/` matches, or none if there is no such position |
| Patterns.ExtractDate | index.js:80 | the extracted date is the 8 digits of the leftmost `/dddddddd/` match; it is absent exactly when there is no match anywhere |
| Patterns.DateAtOpensWithDigit | index.js:80 | a date match has a digit right after its opening slash |
| Patterns.FilenameMatchUnique | index.js:81 | `/([^/]+)$` can match at one position at most |
| Patterns.ExtractFilename | index.js:81 | the file name is the non-empty, slash-free text after the last slash; it is absent exactly when the pattern matches nowhere |
| Patterns.GroupsEnd | index.js:83 | the greedy matcher for `\d+(\.\d+){n-1}` at a position: when it matches, it ends after the position and within the text |
| Patterns.GroupsEndSound | index.js:83 | what the greedy `\d+(\.\d+){n-1}` matcher consumes is exactly n dot-separated digit groups |
| Patterns.GroupsEndComplete | index.js:83 | n dotted groups followed by a non-digit or the end are consumed in full by the greedy matcher |
| Patterns.VersionAt | index.js:82-84 | `rhino_[a-z]{2}-[a-z]{2}_(\d+\.\d+\.\d+\.\d+)\.exe` tried at one position: a lowercase locale prefix, four greedy dotted digit groups, then `.exe`; the groups are the capture |
| Patterns.FirstVersionFrom | index.js:82-84 | the leftmost-match scan: the first position at or after `from` where `VersionAt` matches, with no match before it, or none if no later position matches |
| Patterns.VersionAtSound | index.js:82-84 | a version the matcher finds at a position is a match of the pattern there |
| Patterns.VersionAtComplete | index.js:82-84 | every match of the pattern at a position is found by the matcher, with the same capture |
| Patterns.FirstVersionFromIs | index.js:82-84 | the scan returns the first position with a match |
| Patterns.NoMatchBefore | index.js:82-84 | positions the scan passed over hold no match of the pattern |
| Patterns.LeftmostMatchIsFound | index.js:82-84 | the leftmost match of the pattern is where the scan stops |
| Patterns.ExtractVersion | index.js:82-84 | an extracted version is four dot-separated digit groups |
| Patterns.ExtractVersionIsLeftmostMatch | index.js:82-84 | the extracted version is v exactly when the pattern's leftmost match captures v |
| Patterns.ExtractVersionNoneIffNoMatch | index.js:82-84 | no version is extracted exactly when the pattern matches nowhere |
| Patterns.DottedGroupsIsVersionText | index.js:83 | dotted digit groups are digits and dots starting with a digit, with a dot when there are two groups or more |
| Patterns.DottedGroupsIsFullVersion | index.js:66 | every four-group version would also pass the pinned check |
| Resolver.RedirectReleaseShape | index.js:80-84 | a resolved release's date is the 8 digits of the leftmost `/dddddddd/` match, its file name is the text after the last slash, and its version is the four-group capture from that name |
| Resolver.RedirectFailsExactlyOnMismatch | index.js:80-84 | a 302 target fails exactly when one of the three patterns does not match, and a missing date is reported first |
| Resolver.Resolve | index.js:63-85 | the redirect endpoint is asked exactly in floating mode with a valid channel, and the answer decides; pinned mode decides from the inputs alone |
| Resolver.ResolvedVersionIsVersionText | index.js:63-85 | every resolved version, in either mode, is digits and dots, starts with a digit and contains a dot |
| Resolver.PinnedNameMatches | index.js:69 | the pinned file name of a four-group version matches the file-name version pattern at its start |
| Resolver.PinnedNameParsesBack | index.js:82-84 | the version pattern reads a four-group version back out of `rhino_en-us_<version>.exe` |
| Resolver.NoDateInBase | index.js:70 | no date match starts inside the fixed base of a pinned URL |
| Resolver.PinnedUrlDate | index.js:80 | the date pattern reads an 8-digit date back out of a pinned URL |
| Resolver.PinnedUrlFilename | index.js:81 | the file-name pattern reads a slash-free file name back out of a pinned URL |
| Resolver.PinnedFilenameHasNoSlash | index.js:69 | a pinned file name holds no slash |
| Resolver.PinnedUrlResolvesBack | index.js:77-84 | a 302 to the URL a pinned run would build resolves to the release that pinned run would install |
| Resolver.PinnedAndFloatingAgree | index.js:63-85 | pinning a four-group version and an 8-digit date gives the same release as any valid channel redirected to its pinned URL |
| Identifiers.MajorVersion | index.js:87 | the major version is the prefix before the first dot, or the whole version when it has no dot |
| Identifiers.VersionTextMajor | index.js:87 | the major version of an accepted version is a non-empty digit run, and the version holds no dash |
| Identifiers.InstallPath | index.js:88-90 | the install directory is `C:\Program Files\Rhino <major>`, with ` WIP` appended for the `wip` channel |
| Identifiers.InstallPathInjective | index.js:88-91 | install paths built from space-free majors are equal only for the same major and the same channel kind |
| Identifiers.CacheKey | index.js:101 | the cache key is `smola-setup-rhino3d-v0-<version>-<date>` |
| Identifiers.CacheKeyInjective | index.js:101 | cache keys of dash-free versions are equal only for equal versions and equal dates |
| Setup.ResolvedKeysIdentify | index.js:101 | equal cache keys of resolved releases mean equal version and date |
| Setup.HomeFor | index.js:87-91 | a release's install directory is built from the major version of its version, with the ` WIP` suffix exactly when the selected channel is `wip` |
| Setup.HomeDistinguishesWip | index.js:87-91 | the install directory ends in ` WIP` exactly for the `wip` channel, and a `wip` directory never coincides with a numbered one |
| Setup.InstallDirectory | index.js:87-91 | the step-by-step construction of the directory, with its ` WIP` reassignment, equals `HomeFor` |
| Setup.ResolveRelease | index.js:63-85 | the step-by-step resolution makes the request and yields the release that `Resolve` specifies |
| Setup.Run | index.js:27-143 | the step-by-step run produces the trace and result of `Behaviour` |
| Setup.BehaviourShape | index.js:39-140 | on Windows a run is the warning and the request, then either the resolution error or the provisioning sequence of the release |
| Setup.PinnedRun | index.js:63-71 | a pinned run never asks the endpoint; it fails with `InvalidFullVersion` exactly when the version does not match, and then emits only warnings; every download is from the pinned URL to the pinned file name |
| Setup.BadChannelFailsBeforeRequest | index.js:73-75 | an invalid channel fails before any request |
| Setup.FloatingRequestsOnce | index.js:77-79 | a valid channel asks the endpoint exactly once, right after the optional warning; a non-302 answer ends the run there with that status |
| Setup.ProceedOutputsBeforeSteps | index.js:77-140 | after the warning, a run sets no output after a provisioning step has started |
| Setup.HomeAndOutputs | index.js:87-95 | outputs are set before every provisioning step, and a pinned `wip` run fails the version check |
| Setup.SequenceSteps | index.js:93-140 | the provisioning sequence sets outputs first, never asks the endpoint, and otherwise only provisions |
| Provisioning.Sequence | index.js:93-140 | the install sequence as a table: the outputs; then nothing if the directory exists; else a restore if on, ending on a hit; else a download if the file is absent, the installer run unless that download failed, and a save if on and the installer succeeded; the restore and save use the release's key for the directory alone |
| Provisioning.Provision | index.js:93-140 | the step-by-step sequence emits the trace and result that `Sequence` tabulates |
| Provisioning.OutputsComeFirst | index.js:93-95 | the three outputs open the sequence, and everything after them is an install step |
| Provisioning.PresentSkipsEverything | index.js:97-98 | an existing install directory means no restore, download, installer run or save |
| Provisioning.RestoreAttemptedExactly | index.js:100-105 | a restore is attempted exactly when the directory is missing and restoring is on, and it uses the release's key for the directory alone |
| Provisioning.RestoreHitSkipsInstall | index.js:106-114 | a cache hit ends the sequence without download, installer run or save |
| Provisioning.DownloadExactlyWhenAbsent | index.js:114-123 | the installer is downloaded exactly when the installer stage is reached and the file is absent, always from the release URL to its file name, and before any installer run |
| Provisioning.InstallerRunsUnlessShortCircuited | index.js:114-133 | once the installer stage is reached, the installer runs whenever its file is present or was fetched |
| Provisioning.SaveOnlyAfterSuccessfulInstall | index.js:134-138 | a save happens exactly when saving is on and the installer ran and succeeded; it is the last action and uses the release's key |
| Provisioning.OutcomeMatchesPath | index.js:97-140 | the outcome names the path taken: already present, restored, installed with or without a download, or the failing step |
| Staging.Staged | index.js:10 | the staging name extends the destination and differs from it |
| Staging.ConcatAppend | index.js:12 | writing two runs of chunks in turn writes their bytes in turn |
| Staging.ConcatSnoc | index.js:12 | one more chunk appends its bytes |
| Staging.AfterDownload | index.js:9-14 | the files after a download: on completion the staging name is removed and the destination holds the whole body; on a break only the staging name changes, to the bytes that arrived |
| Staging.WorkingDirectory.Download | index.js:9-14 | reports completion exactly when the stream finishes; the new file map is `AfterDownload` of the old one |
| Staging.CompletedDownload | index.js:13 | after completion the destination holds the whole body, the staging name is gone, and no other file changed |
| Staging.BrokenDownload | index.js:10-13 | a broken transfer leaves the destination as it was and a prefix of the body under the staging name, so a later existence check never sees a partial installer |
| Scenarios.ExampleVersionGroups | index.js:83 | `8.6.24015.13001` is four dotted digit groups |
| Scenarios.ExampleHomeIsRhinoEight | index.js:87-91 | release 8.6.24015.13001 on channel `8` installs into `C:\Program Files\Rhino 8` |
| Scenarios.ChannelEightExample | index.js:73-91 | channel `8` redirected to `.../20240115/rhino_en-us_8.6.24015.13001.exe` resolves to version 8.6.24015.13001, date 20240115, and `C:\Program Files\Rhino 8` |

## Left out

- The HTTP transport (`https.get` and `fetch` with stream piping) is not modelled. The redirect answer and the download body are parameters.
- Uncaught exceptions are not modelled as such.
  - A non-302 status throws inside the `https.get` callback, which crashes the process instead of rejecting the promise.
  - The model treats it as a fatal `UnexpectedStatus`. A missing `Location` header is the separate error `MissingLocation`.
- Input reading, with its whitespace trimming, and output setting are not modelled. Inputs arrive as strings, and outputs are `SetOutput` actions.
- The `@actions/cache` service internals are not modelled. Availability and restore hits are booleans.
  - The outcome of `saveCache`, including its failures, is not modelled; a save is the `SaveCache` action.
- Running the installer (`execSync` with inherited standard streams) is not modelled. It is the `RunInstaller` action, and its exit status is a boolean answer.
- `process.chdir` to the temp directory, `process.exit` and the top-level `try`/`catch` are not modelled.
  - Every thrown error is a `Result` error that ends the run.
  - The working directory is implicit in file names.
- Console logging is not modelled, except the cache warning, which is a `Warn` action.
- The email is inserted unencoded into the endpoint URL, as the code does. No URL encoding is modelled.
- The staging model is not used by `Provisioning`.
  - `Provisioning` sees the download's effect only through the `installerExists` and `downloadOk` answers.
  - `Staging` separately proves that the installer name appears only after a complete transfer.
- The `download` body is a list of chunks, with an optional index where the transfer breaks. Asynchronous stream scheduling is not modelled.
