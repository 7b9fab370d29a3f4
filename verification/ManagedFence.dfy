/** Two fences that refuse to run against managed resources of a newer release: the ordinary one
    in src/resource-loader.ts, which compares versions, and the one in
    src/coordination-maintenance-backend.ts, which compares components itself. */
module ManagedFence {
  import opened Wrappers
  import opened Versions

  /** managed-resources.json as it is found; a field is None when it is not a string. */
  datatype ManifestFile =
    | Missing
    | Unreadable
    | Found(packageName: Option<string>, gsdVersion: Option<string>)

  // ----- The ordinary check

  function TrimStart(s: string, space: char -> bool): string
  {
    if s != "" && space(s[0]) then TrimStart(s[1..], space) else s
  }

  function TrimEnd(s: string, space: char -> bool): (r: string)
    ensures |r| <= |s| && r == s[..|r|]
  {
    if s != "" && space(s[|s| - 1]) then TrimEnd(s[..|s| - 1], space) else s
  }

  function WithoutV(s: string): string
  {
    if s != "" && s[0] == 'v' then s[1..] else s
  }

  predicate EndsRelease(c: char) { c == '+' || c == '-' }

  function StripBuildMetadata(version: string, space: char -> bool): string
  {
    var r := Before(WithoutV(TrimEnd(TrimStart(version, space), space)), EndsRelease);
    if r == "" then "0.0.0" else r
  }

  predicate IsNewer(n: ToNumber, space: char -> bool, managed: string, current: string)
  {
    Compare(n, StripBuildMetadata(managed, space), StripBuildMetadata(current, space)) > 0
  }

  method GetNewerManagedResourceVersion(n: ToNumber, space: char -> bool, file: ManifestFile, packageName: string,
                                        current: string)
    returns (newer: Option<string>)
    ensures newer.Some? <==> OrdinaryRefuses(n, space, file, packageName, current)
    ensures newer.Some? ==> newer == file.gsdVersion
  {
    if !file.Found? || file.packageName != Some(packageName) { return None; }
    if file.gsdVersion.None? || file.gsdVersion.value == "" { return None; }
    var c := CompareSemver(n, StripBuildMetadata(file.gsdVersion.value, space), StripBuildMetadata(current, space));
    return if c > 0 then file.gsdVersion else None;
  }

  // ----- The maintenance fence

  predicate LineBreak(c: char)
  {
    c == '\n' || c == '\r' || c == '\U{2028}' || c == '\U{2029}'
  }

  function ReleasePart(value: string): string
  {
    Before(WithoutV(value), EndsRelease)
  }

  /** An optional v, three numbers with dots between, and then nothing or a suffix on one line that
      begins with a plus or a minus. */
  predicate IsRelease(value: string)
  {
    var core := SplitDots(ReleasePart(value));
    |core| == 3 && DigitString(core[0]) && DigitString(core[1]) && DigitString(core[2])
    && forall i | |ReleasePart(value)| <= i < |WithoutV(value)| :: !LineBreak(WithoutV(value)[i])
  }

  /** `>` on two results of Number, false when either is NaN. */
  predicate Exceeds(n: ToNumber, x: string, y: string)
  {
    n(x).Some? && n(y).Some? && n(x).value > n(y).value
  }

  predicate ExceedsAt(n: ToNumber, a: seq<string>, b: seq<string>, i: nat)
    requires i < |a| && i < |b|
  {
    Exceeds(n, a[i], b[i]) && forall j | 0 <= j < i :: !Exceeds(n, a[j], b[j]) && !Exceeds(n, b[j], a[j])
  }

  /** The first component that differs is the greater one. */
  predicate HigherRelease(n: ToNumber, managed: string, current: string)
    requires IsRelease(managed) && IsRelease(current)
  {
    var a, b := SplitDots(ReleasePart(managed)), SplitDots(ReleasePart(current));
    exists i: nat :: i < 3 && ExceedsAt(n, a, b, i)
  }

  method CompareReleases(n: ToNumber, managed: string, current: string) returns (higher: bool)
    requires IsRelease(managed) && IsRelease(current)
    ensures higher <==> HigherRelease(n, managed, current)
  {
    var a, b := SplitDots(ReleasePart(managed)), SplitDots(ReleasePart(current));
    for i := 0 to 3
      invariant forall j | 0 <= j < i :: !Exceeds(n, a[j], b[j]) && !Exceeds(n, b[j], a[j])
    {
      if Exceeds(n, a[i], b[i]) {
        assert ExceedsAt(n, a, b, i);
        return true;
      }
      if Exceeds(n, b[i], a[i]) { return false; }
    }
    return false;
  }

  /** True when the fence throws. */
  method AssertMaintenancePackageCompatibility(n: ToNumber, file: ManifestFile, packageName: string,
                                               version: Option<string>)
    returns (refused: bool)
    ensures refused <==> MaintenanceRefuses(n, file, packageName, version)
  {
    hide IsRelease, HigherRelease;
    if file.Missing? { return false; }
    if file.Unreadable? { return true; }
    if file.packageName != Some(packageName) { return false; }
    if version.None? || !IsRelease(version.value) { return true; }
    if file.gsdVersion.None? || !IsRelease(file.gsdVersion.value) { return true; }
    refused := CompareReleases(n, file.gsdVersion.value, version.value);
  }

  predicate MaintenanceRefuses(n: ToNumber, file: ManifestFile, packageName: string, version: Option<string>)
  {
    file.Unreadable?
    || (file.Found? && file.packageName == Some(packageName)
        && (version.None? || !IsRelease(version.value)
            || file.gsdVersion.None? || !IsRelease(file.gsdVersion.value)
            || HigherRelease(n, file.gsdVersion.value, version.value)))
  }

  predicate OrdinaryRefuses(n: ToNumber, space: char -> bool, file: ManifestFile, packageName: string, current: string)
  {
    file.Found? && file.packageName == Some(packageName) && file.gsdVersion.Some?
    && file.gsdVersion.value != "" && IsNewer(n, space, file.gsdVersion.value, current)
  }

  // ----- They agree

  ghost predicate NoSpaceInVersions(space: char -> bool)
  {
    !space('v') && forall c | Digit(c) :: !space(c)
  }

  lemma {:induction false} BeforePrefix(s: string, k: nat, stop: char -> bool)
    requires |Before(s, stop)| <= k <= |s|
    ensures Before(s[..k], stop) == Before(s, stop)
  {
    if s != "" && !stop(s[0]) { BeforePrefix(s[1..], k - 1, stop); assert s[..k][1..] == s[1..][..k - 1]; }
  }

  lemma {:induction false} TrimEndKeeps(s: string, k: nat, space: char -> bool)
    requires 0 < k <= |s| && !space(s[k - 1])
    ensures |TrimEnd(s, space)| >= k
  {
    if space(s[|s| - 1]) { TrimEndKeeps(s[..|s| - 1], k, space); }
  }

  lemma {:induction false} LastOfSplit(s: string)
    ensures var r := SplitDots(s); r[|r| - 1] != "" ==> s != "" && r[|r| - 1][|r[|r| - 1]| - 1] == s[|s| - 1]
    ensures SplitDots(s)[0] != "" ==> s != "" && SplitDots(s)[0][0] == s[0]
  {
    if s != "" { LastOfSplit(s[1..]); }
  }

  /** Trimming cannot reach into the release part. */
  lemma StripIsReleasePart(value: string, space: char -> bool)
    requires IsRelease(value) && NoSpaceInVersions(space)
    ensures StripBuildMetadata(value, space) == ReleasePart(value)
  {
    var part, t := ReleasePart(value), WithoutV(value);
    LastOfSplit(part);
    var core := SplitDots(part);
    assert Digit(core[0][0]) && Digit(core[2][|core[2]| - 1]);
    var skip := |value| - |t|;
    assert value[skip..] == t && t[..|part|] == part;
    assert value[skip] == part[0] && value[skip + |part| - 1] == part[|part| - 1];
    assert TrimStart(value, space) == value;
    TrimEndKeeps(value, skip + |part|, space);
    var k := |TrimEnd(value, space)| - skip;
    assert WithoutV(TrimEnd(value, space)) == t[..k];
    BeforePrefix(t, k, EndsRelease);
  }

  lemma {:induction false} BeforeWhole(s: string, stop: char -> bool)
    requires forall i | 0 <= i < |s| :: !stop(s[i])
    ensures Before(s, stop) == s
  {
    if s != "" { BeforeWhole(s[1..], stop); }
  }

  lemma ReleasePartParses(value: string)
    ensures Parse(ReleasePart(value)) == Parsed(SplitDots(ReleasePart(value)), None)
  {
    BeforeWhole(ReleasePart(value), c => c == '-');
  }

  lemma ThreeComponents(n: ToNumber, a: seq<string>, b: seq<string>)
    requires |a| == |b| == 3 && forall i | 0 <= i < 3 :: n(a[i]).Some? && n(b[i]).Some?
    ensures CompareCore(n, a, b, 0) > 0 <==> exists i: nat :: i < 3 && ExceedsAt(n, a, b, i)
  {
    assert forall i: nat | i < 3 :: Component(n, a, i) == n(a[i]).value && Component(n, b, i) == n(b[i]).value;
    assert CompareCore(n, a, b, 3) == 0;
    assert CompareCore(n, a, b, 2) > 0 <==> Exceeds(n, a[2], b[2]);
    assert CompareCore(n, a, b, 1) > 0 <==>
           Exceeds(n, a[1], b[1]) || (!Exceeds(n, b[1], a[1]) && CompareCore(n, a, b, 2) > 0);
    if CompareCore(n, a, b, 0) > 0 {
      assert ExceedsAt(n, a, b, 0) || ExceedsAt(n, a, b, 1) || ExceedsAt(n, a, b, 2);
    }
  }

  /** On releases the two compute the same order, however large the numbers are. */
  lemma FencesAgreeOnReleases(n: ToNumber, space: char -> bool, managed: string, current: string)
    requires IsRelease(managed) && IsRelease(current) && NoSpaceInVersions(space)
    requires forall s | DigitString(s) :: n(s).Some?
    ensures IsNewer(n, space, managed, current) <==> HigherRelease(n, managed, current)
  {
    StripIsReleasePart(managed, space);
    StripIsReleasePart(current, space);
    ReleasePartParses(managed);
    ReleasePartParses(current);
    ThreeComponents(n, SplitDots(ReleasePart(managed)), SplitDots(ReleasePart(current)));
  }

  /** On all inputs: the maintenance fence refuses what the ordinary check refuses or a manifest
      it cannot use, that is, an unreadable one or one for this package whose version, or the
      package's own, is not a release. */
  lemma FencesAgree(n: ToNumber, space: char -> bool, file: ManifestFile, packageName: string, current: string)
    requires NoSpaceInVersions(space) && forall s | DigitString(s) :: n(s).Some?
    ensures MaintenanceRefuses(n, file, packageName, Some(current)) <==>
            || file.Unreadable?
            || (file.Found? && file.packageName == Some(packageName)
                && (!IsRelease(current) || file.gsdVersion.None? || !IsRelease(file.gsdVersion.value)))
            || OrdinaryRefuses(n, space, file, packageName, current)
  {
    hide IsNewer, HigherRelease;
    if file.Found? && file.gsdVersion.Some? && IsRelease(file.gsdVersion.value) && IsRelease(current) {
      FencesAgreeOnReleases(n, space, file.gsdVersion.value, current);
      assert file.gsdVersion.value != "" by { ReleaseIsNotEmpty(file.gsdVersion.value); }
    }
    hide IsRelease;
  }

  lemma ReleaseIsNotEmpty(value: string)
    requires IsRelease(value)
    ensures value != ""
  {
    LastOfSplit(ReleasePart(value));
  }
}
