/** The identifiers derived from the resolved release: the install directory and the cache key. */
module Identifiers {
  import opened Text
  import opened Patterns

  const HomePrefix: string := "C:\\Program Files\\Rhino "
  const WipSuffix: string := " WIP"
  const KeyPrefix: string := "smola-setup-rhino3d-v0-"

  /** `version.split(".")[0]`: the text before the first dot, or the whole version if it has none. */
  function MajorVersion(version: string): (major: string)
    ensures |major| <= |version| && major == version[..|major|]
    ensures forall k :: 0 <= k < |major| ==> major[k] != '.'
    ensures |major| == |version| || version[|major|] == '.'
  {
    BeforeFirst(version, '.')
  }

  /** The major version of every accepted version is a non-empty run of digits, and the
      version itself holds no dash. */
  lemma VersionTextMajor(version: string)
    requires VersionText(version)
    ensures IsGroup(MajorVersion(version))
    ensures forall k :: 0 <= k < |version| ==> version[k] != '-'
  {
    var major := MajorVersion(version);
    forall k | 0 <= k < |major| ensures IsDigit(major[k]) {
      assert major[k] == version[k];
    }
  }

  /** The install directory for a major version; the "wip" channel gets its own directory. */
  function InstallPath(major: string, wip: bool): string
  {
    HomePrefix + major + (if wip then WipSuffix else "")
  }

  /** Two install paths built from space-free majors coincide only when built from the same
      major and the same channel kind: a "wip" install never lands in a release's directory. */
  lemma InstallPathInjective(major1: string, wip1: bool, major2: string, wip2: bool)
    requires forall k :: 0 <= k < |major1| ==> major1[k] != ' '
    requires forall k :: 0 <= k < |major2| ==> major2[k] != ' '
    requires InstallPath(major1, wip1) == InstallPath(major2, wip2)
    ensures major1 == major2 && wip1 == wip2
  {
    var n := |HomePrefix|;
    var suffix1 := if wip1 then WipSuffix else "";
    var suffix2 := if wip2 then WipSuffix else "";
    var t := InstallPath(major1, wip1)[n..];
    assert t == major1 + suffix1 && t == major2 + suffix2;
    BeforeFirstOfJoin(major1, suffix1, ' ');
    BeforeFirstOfJoin(major2, suffix2, ' ');
    assert suffix1 == t[|major1|..];
  }

  /** `smola-setup-rhino3d-v0-<version>-<date>`. */
  function CacheKey(version: string, date: string): string
  {
    KeyPrefix + version + "-" + date
  }

  /** Distinct (version, date) pairs give distinct keys whenever the versions hold no dash;
      the date may be anything. */
  lemma CacheKeyInjective(version1: string, date1: string, version2: string, date2: string)
    requires forall k :: 0 <= k < |version1| ==> version1[k] != '-'
    requires forall k :: 0 <= k < |version2| ==> version2[k] != '-'
    requires CacheKey(version1, date1) == CacheKey(version2, date2)
    ensures version1 == version2 && date1 == date2
  {
    var n := |KeyPrefix|;
    var t := CacheKey(version1, date1)[n..];
    assert t == version1 + ("-" + date1) && t == version2 + ("-" + date2);
    BeforeFirstOfJoin(version1, "-" + date1, '-');
    BeforeFirstOfJoin(version2, "-" + date2, '-');
    assert date1 == t[|version1| + 1..];
  }
}
