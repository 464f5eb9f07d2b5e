/** The regular expressions of the version resolver, each written out as a
    predicate that reads the pattern literally and a matcher that computes
    the match, with lemmas that the two agree. */
module Patterns {
  import opened Wrappers
  import opened Text

  /** A digits-and-dots text that starts with a digit: the shape every accepted version has. */
  predicate VersionText(v: string)
  {
    |v| > 0 && IsDigit(v[0]) && IsDigitsOrDots(v)
  }

  // ---------------------------------------------------------------------
  // Pinned full version: /^\d+\.[0-9.]+$/

  /** The pattern read literally: digits, a dot, then at least one digit or dot, and nothing else. */
  ghost predicate FullVersionPattern(s: string)
  {
    exists k :: 1 <= k < |s| - 1 && IsDigits(s[..k]) && s[k] == '.' && IsDigitsOrDots(s[k + 1..])
  }

  /** The matcher: a greedy `\d+`, then the dot, then the rest. */
  predicate IsFullVersion(s: string)
  {
    var k := DigitRun(s, 0);
    1 <= k < |s| - 1 && s[k] == '.' && IsDigitsOrDots(s[k + 1..])
  }

  lemma FullVersionMatchesPattern(s: string)
    ensures IsFullVersion(s) <==> FullVersionPattern(s)
  {
    if IsFullVersion(s) {
      RunIsDigits(s);
    }
    if FullVersionPattern(s) {
      var j :| 1 <= j < |s| - 1 && IsDigits(s[..j]) && s[j] == '.' && IsDigitsOrDots(s[j + 1..]);
      DigitsThenDot(s, j);
    }
  }

  /** The greedy run of leading digits is digits. */
  lemma RunIsDigits(s: string)
    ensures IsDigits(s[..DigitRun(s, 0)])
  {
    var k := DigitRun(s, 0);
    DigitRunSpec(s, 0);
    forall i | 0 <= i < k
      ensures IsDigit(s[..k][i])
    {
      assert s[..k][i] == s[i];
    }
  }

  /** Leading digits ended by a dot are exactly the greedy run. */
  lemma DigitsThenDot(s: string, j: nat)
    requires j < |s| && IsDigits(s[..j]) && s[j] == '.'
    ensures DigitRun(s, 0) == j
  {
    forall i | 0 <= i < j
      ensures IsDigit(s[i])
    {
      assert s[..j][i] == s[i];
    }
    DigitRunIs(s, 0, j);
  }

  lemma FullVersionIsVersionText(s: string)
    requires IsFullVersion(s)
    ensures VersionText(s) && '.' in s
  {
    var k := DigitRun(s, 0);
    DigitRunSpec(s, 0);
    forall i | 0 <= i < |s|
      ensures IsDigit(s[i]) || s[i] == '.'
    {
      if i > k {
        assert s[k + 1..][i - k - 1] == s[i];
      }
    }
  }

  // ---------------------------------------------------------------------
  // Floating channel: /^\d+$/ or the literal "wip"

  predicate IsChannel(s: string)
  {
    (|s| > 0 && IsDigits(s)) || s == "wip"
  }

  /** "wip" is a channel but never a full version, so a " WIP" install only arises when floating. */
  lemma WipIsChannelOnly()
    ensures IsChannel("wip") && !IsFullVersion("wip")
  {
    assert DigitRun("wip", 0) == 0;
  }

  // ---------------------------------------------------------------------
  // Release date in the resolved URL: /\/(\d{8})\//, first (leftmost) match

  /** The pattern matches with its opening slash at position `i`. */
  predicate DateAt(s: string, i: nat)
  {
    i + 10 <= |s| && s[i] == '/' && IsDigits(s[i + 1..i + 9]) && s[i + 9] == '/'
  }

  /** The leftmost match position at or after `from`. */
  function FirstDateFrom(s: string, from: nat): (r: Option<nat>)
    ensures r.Some? ==> from <= r.value && DateAt(s, r.value)
    ensures r.Some? ==> forall k :: from <= k < r.value ==> !DateAt(s, k)
    ensures r.None? ==> forall k :: from <= k ==> !DateAt(s, k)
    decreases |s| - from
  {
    if |s| < from + 10 then None
    else if DateAt(s, from) then Some(from)
    else FirstDateFrom(s, from + 1)
  }

  /** A match of the date pattern has a digit right after its opening slash. */
  lemma DateAtOpensWithDigit(s: string, i: nat)
    ensures DateAt(s, i) ==> IsDigit(s[i + 1])
  {
    if DateAt(s, i) {
      assert s[i + 1..i + 9][0] == s[i + 1];
    }
  }

  /** The captured group: the eight digits between the slashes of the leftmost match. */
  function ExtractDate(url: string): (r: Option<string>)
    ensures r.Some? ==> |r.value| == 8 && IsDigits(r.value)
    ensures r.Some? ==> exists i :: DateAt(url, i) && r.value == url[i + 1..i + 9] && forall k :: k < i ==> !DateAt(url, k)
    ensures r.None? <==> forall k :: !DateAt(url, k)
  {
    match FirstDateFrom(url, 0)
    case None => None
    case Some(i) => Some(url[i + 1..i + 9])
  }

  // ---------------------------------------------------------------------
  // Installer file name: /\/([^/]+)$/

  /** The pattern matches with its slash at position `i`: one or more non-slashes follow, up to the end. */
  predicate FilenameAt(s: string, i: nat)
  {
    i + 1 < |s| && s[i] == '/' && forall k :: i < k < |s| ==> s[k] != '/'
  }

  /** At most one position can match, so leftmost and only coincide. */
  lemma FilenameMatchUnique(s: string, i: nat, j: nat)
    requires FilenameAt(s, i) && FilenameAt(s, j)
    ensures i == j
  {
  }

  function ExtractFilename(url: string): (r: Option<string>)
    ensures r.Some? ==> |r.value| > 0 && forall k :: 0 <= k < |r.value| ==> r.value[k] != '/'
    ensures r.Some? ==> exists i :: FilenameAt(url, i) && r.value == url[i + 1..]
    ensures r.None? <==> forall i :: !FilenameAt(url, i)
  {
    match LastIndexOf(url, '/')
    case None => None
    case Some(i) =>
      if i + 1 < |url| then
        assert FilenameAt(url, i);
        Some(url[i + 1..])
      else
        None
  }

  // ---------------------------------------------------------------------
  // Version in the file name: /rhino_[a-z]{2}-[a-z]{2}_(\d+\.\d+\.\d+\.\d+)\.exe/

  /** `rhino_[a-z]{2}-[a-z]{2}_`, twelve characters starting at position `i`. */
  predicate LocalePrefixAt(s: string, i: nat)
  {
    && i + 12 <= |s|
    && s[i..i + 6] == "rhino_"
    && IsLower(s[i + 6]) && IsLower(s[i + 7]) && s[i + 8] == '-'
    && IsLower(s[i + 9]) && IsLower(s[i + 10]) && s[i + 11] == '_'
  }

  /** `\d+`: a non-empty run of digits. */
  predicate IsGroup(g: string) { |g| > 0 && IsDigits(g) }

  /** `v` is exactly `n` non-empty digit groups with a dot between neighbours, `\d+(\.\d+){n-1}`,
      read from the left: a group, a dot, then `n - 1` groups. */
  ghost predicate DottedGroups(v: string, n: nat)
    decreases n
  {
    if n <= 1 then n == 1 && IsGroup(v)
    else exists k :: GroupThenDot(v, k) && DottedGroups(v[k + 1..], n - 1)
  }

  /** `v` begins with a digit group of length `k` and a dot after it. */
  predicate GroupThenDot(v: string, k: nat)
  {
    0 < k < |v| && IsGroup(v[..k]) && v[k] == '.'
  }

  /** Greedy matcher for `n` dot-separated digit groups starting at `p`: where the match ends. */
  function GroupsEnd(s: string, p: nat, n: nat): (r: Option<nat>)
    requires p <= |s| && n >= 1
    ensures r.Some? ==> p < r.value <= |s|
    decreases n
  {
    var g := DigitRun(s, p);
    if g == 0 then None
    else if n == 1 then Some(p + g)
    else if p + g < |s| && s[p + g] == '.' then GroupsEnd(s, p + g + 1, n - 1)
    else None
  }

  /** A group, a dot, then `n - 1` dotted groups make `n` dotted groups. */
  lemma DottedGroupsCons(v: string, n: nat, k: nat)
    requires n >= 2 && GroupThenDot(v, k) && DottedGroups(v[k + 1..], n - 1)
    ensures DottedGroups(v, n)
  {
  }

  /** The first group the matcher consumes, read off the text `v` standing where it matched. */
  lemma GroupsEndFirst(s: string, p: nat, n: nat, v: string)
    requires p <= |s| && n >= 1 && GroupsEnd(s, p, n) == Some(p + |v|) && OccursAt(s, p, v)
    ensures var g := DigitRun(s, p);
      && g <= |v| && IsGroup(v[..g])
      && (n == 1 ==> g == |v|)
      && (n > 1 ==> GroupThenDot(v, g) && OccursAt(s, p + g + 1, v[g + 1..])
                    && GroupsEnd(s, p + g + 1, n - 1) == Some(p + g + 1 + |v[g + 1..]|))
  {
    var g := DigitRun(s, p);
    DigitRunSpec(s, p);
    OccursAtTake(s, p, v, g);
    OccursAtDigits(s, p, v[..g]);
    if n > 1 {
      OccursAtChar(s, p, v, g);
      OccursAtAfter(s, p, v, g);
    }
  }

  /** What the matcher consumes is `n` dotted digit groups: whatever text `v` stands at `p`
      and reaches exactly to where the matcher ends. */
  lemma {:induction false} GroupsEndSound(s: string, p: nat, n: nat, v: string)
    requires p <= |s| && n >= 1 && GroupsEnd(s, p, n) == Some(p + |v|) && OccursAt(s, p, v)
    ensures DottedGroups(v, n)
    decreases n
  {
    var g := DigitRun(s, p);
    GroupsEndFirst(s, p, n, v);
    if n > 1 {
      GroupsEndSound(s, p + g + 1, n - 1, v[g + 1..]);
      DottedGroupsCons(v, n, g);
    } else {
      assert v[..g] == v;
    }
  }

  /** A run of exactly `k` digits at `p`, followed by a non-digit or the end, is what `DigitRun` measures. */
  lemma {:induction false} DigitRunIs(s: string, p: nat, k: nat)
    requires p + k <= |s|
    requires forall j :: p <= j < p + k ==> IsDigit(s[j])
    requires p + k == |s| || !IsDigit(s[p + k])
    ensures DigitRun(s, p) == k
    decreases k
  {
    if k > 0 {
      DigitRunIs(s, p + 1, k - 1);
    }
  }

  /** A digit group standing at `p`, followed by a non-digit or the end, is what `DigitRun` measures there. */
  lemma GroupAt(s: string, p: nat, g: string)
    requires IsGroup(g) && OccursAt(s, p, g)
    requires p + |g| == |s| || !IsDigit(s[p + |g|])
    ensures DigitRun(s, p) == |g|
  {
    forall j | p <= j < p + |g|
      ensures IsDigit(s[j])
    {
      OccursAtChar(s, p, g, j - p);
    }
    DigitRunIs(s, p, |g|);
  }

  /** One step of the matcher: a group of `g` digits and a dot at `p`, then `n - 1` more groups ending at `e`. */
  lemma GroupsEndStep(s: string, p: nat, n: nat, g: nat, e: nat)
    requires p <= |s| && n >= 2 && g > 0 && DigitRun(s, p) == g
    requires p + g < |s| && s[p + g] == '.' && GroupsEnd(s, p + g + 1, n - 1) == Some(e)
    ensures GroupsEnd(s, p, n) == Some(e)
  {
  }

  /** The first group of `v` and its dot stand at `p`, and the matcher ends the remaining groups at `e`. */
  lemma GroupsEndFirstGroup(s: string, p: nat, v: string, n: nat, k: nat, e: nat)
    requires n >= 2 && GroupThenDot(v, k) && OccursAt(s, p, v)
    requires GroupsEnd(s, p + k + 1, n - 1) == Some(e)
    ensures GroupsEnd(s, p, n) == Some(e)
  {
    OccursAtTake(s, p, v, k);
    OccursAtChar(s, p, v, k);
    GroupAt(s, p, v[..k]);
    GroupsEndStep(s, p, n, k, e);
  }

  /** Greedy matching loses nothing here: a digit group is always followed by a non-digit,
      so whenever `n` dotted groups stand at `p` followed by a non-digit at `e` (or the end), the matcher ends at `e`. */
  lemma {:induction false} GroupsEndComplete(s: string, p: nat, v: string, n: nat, e: nat)
    requires DottedGroups(v, n) && OccursAt(s, p, v) && e == p + |v|
    requires e == |s| || !IsDigit(s[e])
    ensures n >= 1 && GroupsEnd(s, p, n) == Some(e)
    decreases n
  {
    if n == 1 {
      GroupAt(s, p, v);
    } else {
      var k: nat :| GroupThenDot(v, k) && DottedGroups(v[k + 1..], n - 1);
      OccursAtAfter(s, p, v, k);
      GroupsEndComplete(s, p + k + 1, v[k + 1..], n - 1, e);
      GroupsEndFirstGroup(s, p, v, n, k, e);
    }
  }

  /** The pattern matches at `i` and captures `v`. */
  ghost predicate VersionMatch(s: string, i: nat, v: string)
  {
    LocalePrefixAt(s, i) && DottedGroups(v, 4) && OccursAt(s, i + 12, v + ".exe")
  }

  /** The matcher at one start position. */
  function VersionAt(s: string, i: nat): Option<string>
  {
    if !LocalePrefixAt(s, i) then None
    else match GroupsEnd(s, i + 12, 4)
      case None => None
      case Some(e) => if OccursAt(s, e, ".exe") then Some(s[i + 12..e]) else None
  }

  /** Whatever the matcher captures at `i` is a match of the pattern there. */
  lemma VersionAtSound(s: string, i: nat)
    requires VersionAt(s, i).Some?
    ensures VersionMatch(s, i, VersionAt(s, i).value)
  {
    var e := GroupsEnd(s, i + 12, 4).value;
    SliceOccurs(s, i + 12, e);
    GroupsEndSound(s, i + 12, 4, s[i + 12..e]);
    OccursAtJoin(s, i + 12, e, ".exe");
  }

  lemma VersionAtComplete(s: string, i: nat, v: string)
    requires VersionMatch(s, i, v)
    ensures VersionAt(s, i) == Some(v)
  {
    var p := i + 12;
    var e := p + |v|;
    OccursAtSplit(s, p, v, ".exe");
    OccursAtChar(s, e, ".exe", 0);
    GroupsEndComplete(s, p, v, 4, e);
    OccursAtSlice(s, p, v);
  }

  /** The leftmost start position at or after `from` where the matcher succeeds. */
  function FirstVersionFrom(s: string, from: nat): (r: Option<nat>)
    ensures r.Some? ==> from <= r.value && VersionAt(s, r.value).Some?
    ensures r.Some? ==> forall k :: from <= k < r.value ==> VersionAt(s, k).None?
    ensures r.None? ==> forall k :: from <= k ==> VersionAt(s, k).None?
    decreases |s| - from
  {
    if |s| < from + 12 then None
    else if VersionAt(s, from).Some? then Some(from)
    else FirstVersionFrom(s, from + 1)
  }

  /** The captured group of the leftmost match. */
  function ExtractVersion(filename: string): (r: Option<string>)
    ensures r.Some? ==> DottedGroups(r.value, 4)
  {
    match FirstVersionFrom(filename, 0)
    case None => None
    case Some(i) => VersionAtSound(filename, i); VersionAt(filename, i)
  }

  /** Where the matcher fails at every position before `i`, the pattern matches nowhere before `i`. */
  lemma NoMatchBefore(s: string, i: nat)
    requires forall k :: 0 <= k < i ==> VersionAt(s, k).None?
    ensures forall k: nat, w :: k < i ==> !VersionMatch(s, k, w)
  {
    forall k: nat, w | k < i
      ensures !VersionMatch(s, k, w)
    {
      if VersionMatch(s, k, w) {
        VersionAtComplete(s, k, w);
      }
    }
  }

  /** The search from `from` stops at the first position where the matcher succeeds. */
  lemma {:induction false} FirstVersionFromIs(s: string, from: nat, i: nat)
    requires from <= i && VersionAt(s, i).Some?
    requires forall k :: from <= k < i ==> VersionAt(s, k).None?
    ensures FirstVersionFrom(s, from) == Some(i)
    decreases i - from
  {
    if from < i {
      assert VersionAt(s, from).None?;
      FirstVersionFromIs(s, from + 1, i);
    }
  }

  /** A match with none before it is where the leftmost search stops. */
  lemma LeftmostMatchIsFound(s: string, i: nat, v: string)
    requires VersionMatch(s, i, v) && forall k: nat, w :: k < i ==> !VersionMatch(s, k, w)
    ensures FirstVersionFrom(s, 0) == Some(i)
  {
    VersionAtComplete(s, i, v);
    forall k | 0 <= k < i
      ensures VersionAt(s, k).None?
    {
      if VersionAt(s, k).Some? {
        VersionAtSound(s, k);
      }
    }
    FirstVersionFromIs(s, 0, i);
  }

  /** The extractor returns `v` exactly when `v` is what the pattern captures at its leftmost match. */
  lemma ExtractVersionIsLeftmostMatch(filename: string, v: string)
    ensures ExtractVersion(filename) == Some(v) <==>
      exists i: nat :: VersionMatch(filename, i, v) && forall k: nat, w :: k < i ==> !VersionMatch(filename, k, w)
  {
    if ExtractVersion(filename) == Some(v) {
      var i := FirstVersionFrom(filename, 0).value;
      VersionAtSound(filename, i);
      NoMatchBefore(filename, i);
    }
    if exists i: nat :: VersionMatch(filename, i, v) && forall k: nat, w :: k < i ==> !VersionMatch(filename, k, w) {
      var i: nat :| VersionMatch(filename, i, v) && forall k: nat, w :: k < i ==> !VersionMatch(filename, k, w);
      LeftmostMatchIsFound(filename, i, v);
      VersionAtComplete(filename, i, v);
    }
  }

  /** The extractor fails exactly when the pattern matches nowhere. */
  lemma ExtractVersionNoneIffNoMatch(filename: string)
    ensures ExtractVersion(filename).None? <==> forall i, v :: !VersionMatch(filename, i, v)
  {
    if ExtractVersion(filename).None? {
      forall i: nat, v ensures !VersionMatch(filename, i, v) {
        if VersionMatch(filename, i, v) {
          VersionAtComplete(filename, i, v);
        }
      }
    } else {
      var i := FirstVersionFrom(filename, 0).value;
      VersionAtSound(filename, i);
    }
  }

  /** A group and a dot in front of a version text give a version text with a dot. */
  lemma GroupThenDotText(v: string, k: nat)
    requires GroupThenDot(v, k) && VersionText(v[k + 1..])
    ensures VersionText(v) && '.' in v
  {
    forall i | 0 <= i < |v|
      ensures IsDigit(v[i]) || v[i] == '.'
    {
      if i < k {
        assert v[..k][i] == v[i];
      } else if i > k {
        assert v[k + 1..][i - k - 1] == v[i];
      }
    }
    assert v[..k][0] == v[0];
  }

  /** Dotted digit groups are digits and dots beginning with a digit, and hold a dot once there are two groups. */
  lemma {:induction false} DottedGroupsIsVersionText(v: string, n: nat)
    requires DottedGroups(v, n)
    ensures VersionText(v) && (n >= 2 ==> '.' in v)
    decreases n
  {
    if n > 1 {
      var k: nat :| GroupThenDot(v, k) && DottedGroups(v[k + 1..], n - 1);
      DottedGroupsIsVersionText(v[k + 1..], n - 1);
      GroupThenDotText(v, k);
    }
  }

  /** Every four-group version the file-name pattern captures also passes the pinned check. */
  lemma DottedGroupsIsFullVersion(v: string)
    requires DottedGroups(v, 4)
    ensures IsFullVersion(v)
  {
    var k: nat :| GroupThenDot(v, k) && DottedGroups(v[k + 1..], 3);
    DottedGroupsIsVersionText(v[k + 1..], 3);
    assert 1 <= k < |v| - 1 && IsDigits(v[..k]) && v[k] == '.' && IsDigitsOrDots(v[k + 1..]);
    FullVersionMatchesPattern(v);
  }
}
