/** Version resolution: a pinned (version, date) pair or a floating channel
    becomes the concrete release to install. */
module Resolver {
  import opened Wrappers
  import opened Text
  import opened Patterns

  /** The concrete release: its version, its release date, the installer's file name and its URL. */
  datatype Release = Release(version: string, date: string, filename: string, url: string)

  /** Every way a run can fail. */
  datatype Error =
    | UnsupportedPlatform(platform: string)
    | InvalidFullVersion(version: string)
    | UnknownSelectedVersion(selected: string)
    | UnexpectedStatus(code: int)
    | MissingLocation
    | NoDateInUrl(url: string)
    | NoFilenameInUrl(url: string)
    | NoVersionInFilename(filename: string)
    | DownloadFailed(url: string)
    | InstallerFailed(filename: string)

  /** The redirect endpoint's answer: the status code and the `Location` header, if present. */
  datatype Redirect = Redirect(status: int, location: Option<string>)

  /** How the release is found: fixed by the inputs, or by asking the redirect endpoint at `endpoint`. */
  datatype Plan = Pinned(release: Release) | Lookup(endpoint: string)

  const PinnedBase: string := "https://files.mcneel.com/dujour/exe/"
  const LookupBase: string := "https://www.rhino3d.com/www-api/download/direct/?slug=rhino-for-windows/"

  function PinnedFilename(version: string): string
  {
    "rhino_en-us_" + version + ".exe"
  }

  function PinnedUrl(date: string, filename: string): string
  {
    PinnedBase + date + "/" + filename
  }

  /** The redirect endpoint for a channel; the contact address is passed through unencoded. */
  function LookupEndpoint(channel: string, email: string): string
  {
    LookupBase + channel + "/latest/&email=" + email
  }

  /** Distinct channels, or distinct addresses, ask at distinct endpoints: a channel is read
      back from the endpoint as the text up to the next '/', and the address as what follows
      the fixed tail. */
  lemma LookupEndpointInjective(channel1: string, email1: string, channel2: string, email2: string)
    requires forall k :: 0 <= k < |channel1| ==> channel1[k] != '/'
    requires forall k :: 0 <= k < |channel2| ==> channel2[k] != '/'
    requires LookupEndpoint(channel1, email1) == LookupEndpoint(channel2, email2)
    ensures channel1 == channel2 && email1 == email2
  {
    var n := |LookupBase|;
    var tail := "/latest/&email=";
    var t := LookupEndpoint(channel1, email1)[n..];
    assert t == channel1 + (tail + email1) && t == channel2 + (tail + email2);
    BeforeFirstOfJoin(channel1, tail + email1, '/');
    BeforeFirstOfJoin(channel2, tail + email2, '/');
    assert email1 == t[|channel1| + |tail|..];
  }

  /** The first half of resolution, decided from the inputs alone. A non-empty pin date selects
      pinned mode, where the version must match `^\d+\.[0-9.]+$` and the date is taken as given;
      otherwise the version input is a channel, all digits or "wip", to be looked up. */
  function PlanRelease(selected: string, pinDate: string, email: string): (r: Result<Plan, Error>)
    ensures pinDate != "" && r.Ok? ==> r.value.Pinned? && r.value.release.version == selected
    ensures pinDate == "" && r.Ok? ==> r.value == Lookup(LookupEndpoint(selected, email))
  {
    if pinDate != "" then
      if !IsFullVersion(selected) then Err(InvalidFullVersion(selected))
      else
        var filename := PinnedFilename(selected);
        Ok(Pinned(Release(selected, pinDate, filename, PinnedUrl(pinDate, filename))))
    else if !IsChannel(selected) then Err(UnknownSelectedVersion(selected))
    else Ok(Lookup(LookupEndpoint(selected, email)))
  }

  /** Pinned mode fails, with the version in the error, exactly when the version does not match
      `^\d+\.[0-9.]+$`; otherwise the file name and URL are the templates filled with the
      version and the date, the date taken as given. */
  lemma PinnedPlanExactly(selected: string, pinDate: string, email: string)
    requires pinDate != ""
    ensures var r := PlanRelease(selected, pinDate, email);
      && (r.Ok? <==> FullVersionPattern(selected))
      && (r.Err? ==> r.error == InvalidFullVersion(selected))
      && (r.Ok? ==>
            var name := "rhino_en-us_" + selected + ".exe";
            r.value.release == Release(selected, pinDate, name, "https://files.mcneel.com/dujour/exe/" + pinDate + "/" + name))
  {
    FullVersionMatchesPattern(selected);
  }

  /** Floating mode accepts exactly a non-empty all-digits channel or "wip", and otherwise fails
      naming the channel. */
  lemma FloatingPlanExactly(selected: string, email: string)
    ensures var r := PlanRelease(selected, "", email);
      && (r.Ok? <==> (|selected| > 0 && IsDigits(selected)) || selected == "wip")
      && (r.Err? ==> r.error == UnknownSelectedVersion(selected))
  {
  }

  /** The second half of floating resolution: the release named by the redirect target. */
  function FromRedirect(answer: Redirect): (r: Result<Release, Error>)
    ensures answer.status != 302 ==> r == Err(UnexpectedStatus(answer.status))
    ensures answer.status == 302 && answer.location.None? ==> r == Err(MissingLocation)
    ensures r.Ok? ==> answer == Redirect(302, Some(r.value.url))
  {
    if answer.status != 302 then Err(UnexpectedStatus(answer.status))
    else match answer.location
      case None => Err(MissingLocation)
      case Some(url) =>
        match ExtractDate(url)
        case None => Err(NoDateInUrl(url))
        case Some(date) =>
          match ExtractFilename(url)
          case None => Err(NoFilenameInUrl(url))
          case Some(filename) =>
            match ExtractVersion(filename)
            case None => Err(NoVersionInFilename(filename))
            case Some(version) => Ok(Release(version, date, filename, url))
  }

  /** A release named by a redirect target carries the eight digits of the leftmost
      `/dddddddd/` segment as its date, the text after the last slash as its file name,
      and the four-group version the file-name pattern captures. */
  lemma RedirectReleaseShape(answer: Redirect)
    requires FromRedirect(answer).Ok?
    ensures var r := FromRedirect(answer).value;
      && |r.date| == 8 && IsDigits(r.date)
      && (exists i :: DateAt(r.url, i) && r.date == r.url[i + 1..i + 9] && forall k :: k < i ==> !DateAt(r.url, k))
      && (exists i :: FilenameAt(r.url, i) && r.filename == r.url[i + 1..])
      && DottedGroups(r.version, 4)
      && ExtractVersion(r.filename) == Some(r.version)
  {
  }

  /** The outcome of resolution: the redirect endpoint asked, if any, and the release or the error. */
  datatype Resolution = Resolution(requested: Option<string>, release: Result<Release, Error>)

  /** Both halves together. The endpoint is asked only on a floating run whose channel is valid,
      and then the answer decides; a pinned run decides from its inputs alone. */
  function Resolve(selected: string, pinDate: string, email: string, answer: Redirect): (r: Resolution)
    ensures r.requested.Some? <==> pinDate == "" && IsChannel(selected)
    ensures r.requested.Some? ==> r.requested.value == LookupEndpoint(selected, email) && r.release == FromRedirect(answer)
    ensures r.requested.None? && r.release.Ok? ==> PlanRelease(selected, pinDate, email) == Ok(Pinned(r.release.value))
    ensures r.requested.None? && r.release.Err? ==> PlanRelease(selected, pinDate, email) == Err(r.release.error)
  {
    match PlanRelease(selected, pinDate, email)
    case Err(e) => Resolution(None, Err(e))
    case Ok(Pinned(release)) => Resolution(None, Ok(release))
    case Ok(Lookup(endpoint)) => Resolution(Some(endpoint), FromRedirect(answer))
  }

  /** Every release resolution produces, in either mode, has a digits-and-dots version
      that begins with a digit and contains a dot. */
  lemma ResolvedVersionIsVersionText(selected: string, pinDate: string, email: string, answer: Redirect)
    requires Resolve(selected, pinDate, email, answer).release.Ok?
    ensures var v := Resolve(selected, pinDate, email, answer).release.value.version;
      VersionText(v) && '.' in v
  {
    var res := Resolve(selected, pinDate, email, answer);
    var v := res.release.value.version;
    if res.requested.None? {
      FullVersionIsVersionText(selected);
    } else {
      RedirectReleaseShape(answer);
      DottedGroupsIsVersionText(v, 4);
    }
  }

  /** A 302 answer with a target resolves exactly when all three patterns match,
      and the error names the first pattern that did not. */
  lemma RedirectFailsExactlyOnMismatch(url: string)
    ensures var r := FromRedirect(Redirect(302, Some(url)));
      && (r.Err? <==>
           || (forall k :: !DateAt(url, k))
           || (forall i :: !FilenameAt(url, i))
           || forall i, v :: !VersionMatch(ExtractFilename(url).value, i, v))
      && ((forall k :: !DateAt(url, k)) ==> r == Err(NoDateInUrl(url)))
  {
    var r := FromRedirect(Redirect(302, Some(url)));
    match ExtractFilename(url)
    case None =>
    case Some(filename) =>
      ExtractVersionNoneIffNoMatch(filename);
      assert r.Err? <==> ExtractDate(url).None? || ExtractVersion(filename).None?;
  }

  // ---------------------------------------------------------------------
  // The two modes agree: the floating parser reads the pinned templates back.

  lemma LocalePrefixOfJoin(w: string)
    ensures LocalePrefixAt("rhino_en-us_" + w, 0)
  {
    var s := "rhino_en-us_" + w;
    assert s[0..6] == "rhino_";
  }

  lemma PinnedNameMatches(v: string)
    requires DottedGroups(v, 4)
    ensures VersionMatch(PinnedFilename(v), 0, v)
  {
    var s := PinnedFilename(v);
    assert s == "rhino_en-us_" + (v + ".exe");
    LocalePrefixOfJoin(v + ".exe");
    OccursAtEnd("rhino_en-us_", v + ".exe");
  }

  /** The version pattern reads a four-group version back out of the pinned file name. */
  lemma PinnedNameParsesBack(v: string)
    requires DottedGroups(v, 4)
    ensures ExtractVersion(PinnedFilename(v)) == Some(v)
  {
    var s := PinnedFilename(v);
    PinnedNameMatches(v);
    LeftmostMatchIsFound(s, 0, v);
    VersionAtComplete(s, 0, v);
  }

  lemma BaseHasNoDigit()
    ensures forall k :: 0 <= k < |PinnedBase| ==> !IsDigit(PinnedBase[k])
  {
  }

  /** No match of the date pattern starts inside the fixed base of a pinned URL. */
  lemma NoDateInBase(url: string)
    requires |url| > |PinnedBase| && url[..|PinnedBase|] == PinnedBase
    ensures forall k: nat :: k < |PinnedBase| - 1 ==> !DateAt(url, k)
  {
    BaseHasNoDigit();
    forall k: nat | k < |PinnedBase| - 1
      ensures !DateAt(url, k)
    {
      assert url[k + 1] == url[..|PinnedBase|][k + 1];
      DateAtOpensWithDigit(url, k);
    }
  }

  /** The date pattern reads an eight-digit date back out of a pinned URL. */
  lemma PinnedUrlDate(date: string, name: string)
    requires |date| == 8 && IsDigits(date)
    ensures ExtractDate(PinnedUrl(date, name)) == Some(date)
  {
    var url := PinnedUrl(date, name);
    var b := |PinnedBase|;
    assert url == PinnedBase + (date + ("/" + name));
    assert url[..b] == PinnedBase;
    NoDateInBase(url);
    assert url[b..b + 8] == date;
    assert DateAt(url, b - 1);
    var r := ExtractDate(url);
    var i :| DateAt(url, i) && r.value == url[i + 1..i + 9] && forall k :: k < i ==> !DateAt(url, k);
    assert i == b - 1;
  }

  /** The file-name pattern reads a slash-free file name back out of a pinned URL. */
  lemma PinnedUrlFilename(date: string, name: string)
    requires |date| == 8 && |name| > 0 && forall k :: 0 <= k < |name| ==> name[k] != '/'
    ensures ExtractFilename(PinnedUrl(date, name)) == Some(name)
  {
    var url := PinnedUrl(date, name);
    var pre := PinnedBase + date + "/";
    var j := |pre| - 1;
    assert url == pre + name;
    forall k | j < k < |url|
      ensures url[k] != '/'
    {
      assert url[k] == name[k - |pre|];
    }
    assert FilenameAt(url, j);
    var r := ExtractFilename(url);
    var i :| FilenameAt(url, i) && r.value == url[i + 1..];
    FilenameMatchUnique(url, i, j);
  }

  lemma PinnedFilenameHasNoSlash(v: string)
    requires VersionText(v)
    ensures forall k :: 0 <= k < |PinnedFilename(v)| ==> PinnedFilename(v)[k] != '/'
  {
    var name := PinnedFilename(v);
    forall k | 0 <= k < |name|
      ensures name[k] != '/'
    {
      if k < 12 {
        assert name[k] == "rhino_en-us_"[k];
      } else if k < 12 + |v| {
        assert name[k] == v[k - 12];
      } else {
        assert name[k] == ".exe"[k - 12 - |v|];
      }
    }
  }

  /** A redirect to the URL a pinned run would build is read back, by the floating parser,
      into the release the pinned run would install. */
  lemma PinnedUrlResolvesBack(v: string, date: string)
    requires DottedGroups(v, 4) && |date| == 8 && IsDigits(date)
    ensures var name := PinnedFilename(v);
      var url := PinnedUrl(date, name);
      FromRedirect(Redirect(302, Some(url))) == Ok(Release(v, date, name, url))
  {
    DottedGroupsIsVersionText(v, 4);
    PinnedFilenameHasNoSlash(v);
    var name := PinnedFilename(v);
    PinnedUrlDate(date, name);
    PinnedUrlFilename(date, name);
    PinnedNameParsesBack(v);
  }

  /** Pinning a four-group version and an eight-digit date installs the same release as
      following any valid channel whose endpoint redirects to that release's pinned URL. */
  lemma PinnedAndFloatingAgree(v: string, date: string, channel: string, email: string, answer: Redirect)
    requires DottedGroups(v, 4) && |date| == 8 && IsDigits(date) && IsChannel(channel)
    ensures var name := PinnedFilename(v);
      var url := PinnedUrl(date, name);
      && Resolve(v, date, email, answer).release == Ok(Release(v, date, name, url))
      && Resolve(channel, "", email, Redirect(302, Some(url))).release == Ok(Release(v, date, name, url))
  {
    DottedGroupsIsFullVersion(v);
    PinnedUrlResolvesBack(v, date);
  }
}
