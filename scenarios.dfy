/** A worked run: channel "8" answered with a redirect to the 8.6 release of 15 January 2024. */
module Scenarios {
  import opened Wrappers
  import opened Text
  import opened Patterns
  import opened Resolver
  import opened Setup

  const ExampleVersion: string := "8.6.24015.13001"
  const ExampleDate: string := "20240115"

  lemma ExampleVersionGroups()
    ensures DottedGroups(ExampleVersion, 4)
  {
    var v := ExampleVersion;
    assert GroupThenDot(v, 1);
    assert v[2..] == "6.24015.13001";
    assert GroupThenDot(v[2..], 1);
    assert v[2..][2..] == "24015.13001";
    assert GroupThenDot(v[2..][2..], 5);
    assert v[2..][2..][6..] == "13001";
    assert DottedGroups(v[2..][2..][6..], 1);
    DottedGroupsCons(v[2..][2..], 2, 5);
    DottedGroupsCons(v[2..], 3, 1);
    DottedGroupsCons(v, 4, 1);
  }

  lemma ExampleDateDigits()
    ensures |ExampleDate| == 8 && IsDigits(ExampleDate)
  {
  }

  lemma ExampleHomeIsRhinoEight(r: Release)
    requires r.version == ExampleVersion
    ensures HomeFor(r, "8") == "C:\\Program Files\\Rhino 8"
  {
    assert ExampleVersion == "8" + ".6.24015.13001";
    BeforeFirstOfJoin("8", ".6.24015.13001", '.');
  }

  /** Channel "8", redirected to `.../20240115/rhino_en-us_8.6.24015.13001.exe`, resolves to
      version 8.6.24015.13001 of 20240115 and installs into `C:\Program Files\Rhino 8`. */
  lemma ChannelEightExample(email: string)
    ensures var url := PinnedUrl(ExampleDate, PinnedFilename(ExampleVersion));
      var res := Resolve("8", "", email, Redirect(302, Some(url)));
      && res.release == Ok(Release(ExampleVersion, ExampleDate, PinnedFilename(ExampleVersion), url))
      && HomeFor(res.release.value, "8") == "C:\\Program Files\\Rhino 8"
  {
    ExampleVersionGroups();
    ExampleDateDigits();
    assert IsChannel("8");
    PinnedAndFloatingAgree(ExampleVersion, ExampleDate, "8", email, Redirect(302, None));
    var url := PinnedUrl(ExampleDate, PinnedFilename(ExampleVersion));
    ExampleHomeIsRhinoEight(Resolve("8", "", email, Redirect(302, Some(url))).release.value);
  }
}
