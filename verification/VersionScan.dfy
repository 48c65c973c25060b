/** Scanning read-only data for a NUL-terminated PHP version literal. */
module VersionScan {
  import opened Wrappers
  import FoldedText

  /** One to three ASCII digits. */
  predicate ShortNumber(s: string) {
    1 <= |s| <= 3 && forall i :: 0 <= i < |s| ==> FoldedText.IsDigit(s[i])
  }

  /** `8.x.y` with short numbers x and y. */
  predicate LooksLikePhpVersion(s: string) {
    var parts := FoldedText.Split(s, '.');
    |parts| == 3 && parts[0] == "8" && ShortNumber(parts[1]) && ShortNumber(parts[2])
  }

  /** One to three of the digits 0 to 9. */
  predicate IsShort(s: string) {
    1 <= |s| <= 3 && forall i :: 0 <= i < |s| ==> s[i] in "0123456789"
  }

  function Version(minor: string, patch: string): string {
    "8." + minor + "." + patch
  }

  /** Exactly the strings `8.x.y` with one to three digits for each of x and y look like a version. */
  lemma VersionsLookLike(s: string)
    ensures LooksLikePhpVersion(s) <==> exists x, y :: IsShort(x) && IsShort(y) && s == Version(x, y)
  {
    if LooksLikePhpVersion(s) {
      var parts := FoldedText.Split(s, '.');
      FoldedText.JoinSplit(s, '.');
      assert parts == ["8", parts[1], parts[2]];
      JoinThree(parts[1], parts[2]);
      assert IsShort(parts[1]) && IsShort(parts[2]) && s == Version(parts[1], parts[2]);
    }
    forall x, y | IsShort(x) && IsShort(y) && s == Version(x, y) ensures LooksLikePhpVersion(s) {
      VersionLooksLike(x, y);
    }
  }

  lemma VersionLooksLike(x: string, y: string)
    requires IsShort(x) && IsShort(y)
    ensures LooksLikePhpVersion(Version(x, y))
  {
    JoinThree(x, y);
    FoldedText.SplitFreeJoin(["8", x, y], '.');
  }

  lemma JoinThree(x: string, y: string)
    ensures FoldedText.Join(["8", x, y], '.') == Version(x, y)
  {
    assert ["8", x, y][1..] == [x, y] && [x, y][1..] == [y];
    assert FoldedText.Join([x, y], '.') == x + "." + y;
    assert "8" + "." + (x + "." + y) == "8." + x + "." + y;
  }

  const NUL: char := '\0'

  /** `data[start..end]` is a maximal run of non-NUL bytes that a NUL ends. */
  ghost predicate IsRun(data: string, start: nat, end: nat) {
    && start <= end < |data| && data[end] == NUL
    && (start == 0 || data[start - 1] == NUL)
    && (forall i :: start <= i < end ==> data[i] != NUL)
  }

  /** What the scan accepts: a run strictly longer than five bytes that looks like a version. */
  predicate Accepted(s: string) {
    |s| > 5 && LooksLikePhpVersion(s)
  }

  /** An accepted run with no accepted run before it. */
  ghost predicate IsFirst(data: string, start: nat, end: nat) {
    && IsRun(data, start, end) && Accepted(data[start..end])
    && forall s: nat, e: nat :: IsRun(data, s, e) && s < start ==> !Accepted(data[s..e])
  }

  /** The scan's answer is the first accepted run, and nothing exactly if no run is accepted. */
  method ScanForVersion(data: string) returns (r: Option<string>)
    ensures r.Some? ==> Accepted(r.value)
    ensures r.Some? ==> exists start: nat, end: nat :: IsFirst(data, start, end) && data[start..end] == r.value
    ensures r.None? ==> forall start: nat, end: nat :: IsRun(data, start, end) ==> !Accepted(data[start..end])
  {
    hide LooksLikePhpVersion;
    var i := 0;
    while i < |data|
      invariant 0 <= i <= |data| + 1
      invariant i == 0 || (i <= |data| && data[i - 1] == NUL)
      invariant forall s: nat, e: nat :: IsRun(data, s, e) && s < i ==> !Accepted(data[s..e])
      decreases |data| - i
    {
      var end := i;
      while end < |data| && data[end] != NUL
        invariant i <= end <= |data|
        invariant forall j :: i <= j < end ==> data[j] != NUL
      {
        end := end + 1;
      }
      if end == |data| {
        forall s: nat, e: nat | IsRun(data, s, e) && s >= i ensures false {
          RunPastEnd(data, i, s, e);
        }
        return None;
      }
      assert IsRun(data, i, end);
      if end > i + 5 && LooksLikePhpVersion(data[i..end]) {
        assert IsFirst(data, i, end);
        return Some(data[i..end]);
      }
      forall s: nat, e: nat | IsRun(data, s, e) && s < end + 1 ensures !Accepted(data[s..e]) {
        if s >= i { RunsAgree(data, i, end, s, e); }
      }
      i := end + 1;
    }
    return None;
  }

  lemma RunPastEnd(data: string, i: nat, s: nat, e: nat)
    requires IsRun(data, s, e) && s >= i
    ensures exists j :: i <= j < |data| && data[j] == NUL
  {
    assert data[e] == NUL;
  }

  lemma RunsAgree(data: string, i: nat, end: nat, s: nat, e: nat)
    requires IsRun(data, i, end) && IsRun(data, s, e) && i <= s <= end
    ensures s == i && e == end
  {
  }

  /**
   * Although a version may be as short as "8.5.6", a stand-alone literal is found if and only if it is
   * longer than five bytes: the length test is strict.
   */
  lemma LiteralIsAcceptedIffLong(version: string)
    requires LooksLikePhpVersion(version)
    ensures Accepted(version) <==> |version| != 5
  {
    hide LooksLikePhpVersion;
    VersionsLookLike(version);
  }

  lemma VersionHasNoNul(s: string)
    requires LooksLikePhpVersion(s)
    ensures NUL !in s
  {
    VersionsLookLike(s);
    hide LooksLikePhpVersion;
    var x, y :| IsShort(x) && IsShort(y) && s == Version(x, y);
    assert NUL !in x && NUL !in y;
  }

  /** Scanning data that is one version and its NUL: it is found if and only if it is longer than five bytes. */
  method ScanOfLiteral(version: string) returns (r: Option<string>)
    requires LooksLikePhpVersion(version)
    ensures r == if |version| == 5 then None else Some(version)
  {
    hide LooksLikePhpVersion;
    var data := version + [NUL];
    VersionHasNoNul(version);
    LiteralIsAcceptedIffLong(version);
    assert IsRun(data, 0, |version|) && data[0..|version|] == version;
    r := ScanForVersion(data);
    if r.Some? {
      ghost var start: nat, end: nat :| IsFirst(data, start, end) && data[start..end] == r.value;
      RunsAgree(data, 0, |version|, start, end);
    }
  }

  /** "8.5.6" looks like a version, and a scan over it finds nothing. */
  method ShortestVersionIsSkipped() returns (r: Option<string>)
    ensures LooksLikePhpVersion("8.5.6") && r == None
  {
    VersionLooksLike("5", "6");
    assert Version("5", "6") == "8.5.6";
    r := ScanOfLiteral("8.5.6");
  }

  /** A scan over "8.3.12" finds it. */
  method TypicalVersionIsFound() returns (r: Option<string>)
    ensures r == Some("8.3.12")
  {
    VersionLooksLike("3", "12");
    assert Version("3", "12") == "8.3.12";
    r := ScanOfLiteral("8.3.12");
  }
}
