/**
 * The version manager: the version record loaded from `config/version.json`, its getters,
 * parsing a dotted version string into integers, comparing two versions component by
 * component with zero padding, and merging new fields into the record.
 */
module Versioning {
  import opened Wrappers
  import opened Strings
  import opened Paths

  // ---------------------------------------------------------------------------------------
  // parse_version

  /** `int(part)` on one component: ASCII digits with an optional sign, or a failure. */
  function ParseInt(s: string): (r: Option<int>)
    ensures s == "" ==> r.None?
    ensures r.Some? && s[0] == '-' ==> r.value <= 0
    ensures r.Some? && s[0] != '-' ==> r.value >= 0
    ensures IsDigits(s) ==> r.Some?
  {
    if IsDigits(s) then Some(DigitsValue(s))
    else if |s| >= 2 && s[0] == '-' && IsDigits(s[1..]) then Some(-(DigitsValue(s[1..]) as int))
    else if |s| >= 2 && s[0] == '+' && IsDigits(s[1..]) then Some(DigitsValue(s[1..]))
    else None
  }

  /** The list comprehension: every component converted, or a failure if any one fails. */
  function ParseParts(parts: seq<string>): (r: Option<seq<int>>)
    ensures r.Some? ==> |r.value| == |parts|
  {
    if parts == [] then Some([])
    else match (ParseInt(parts[0]), ParseParts(parts[1..]))
      case (Some(n), Some(ns)) => Some([n] + ns)
      case _ => None
  }

  /** What `parse_version` returns when a component is not an integer. */
  const Fallback: seq<int> := [0, 0, 0]

  /** `parse_version`: the components of a dotted version string, or [0, 0, 0]. */
  function ParseVersion(v: string): (r: seq<int>)
    ensures |r| >= 1
  {
    match ParseParts(Split(v, '.'))
    case Some(ns) => ns
    case None => Fallback
  }

  /** One component that is not an integer makes the whole version [0, 0, 0]. */
  lemma {:induction false} ParseVersionRejects(v: string, i: nat)
    requires i < |Split(v, '.')| && ParseInt(Split(v, '.')[i]) == None
    ensures ParseVersion(v) == Fallback
  {
    ParsePartsRejects(Split(v, '.'), i);
  }

  lemma {:induction false} ParsePartsRejects(parts: seq<string>, i: nat)
    requires i < |parts| && ParseInt(parts[i]) == None
    ensures ParseParts(parts) == None
  {
    if i > 0 {
      ParsePartsRejects(parts[1..], i - 1);
    }
  }

  /** The decimal texts of some natural numbers. */
  function Texts(ns: seq<nat>): (r: seq<string>)
    ensures |r| == |ns|
  {
    if ns == [] then [] else [NatToString(ns[0])] + Texts(ns[1..])
  }

  /** The version string `"a.b.c"` for components a, b, c. */
  function FormatVersion(ns: seq<nat>): string
    requires |ns| >= 1
  {
    Join(Texts(ns), '.')
  }

  lemma {:induction false} ParsePartsOfTexts(ns: seq<nat>)
    ensures ParseParts(Texts(ns)) == Some(ns)
  {
    if ns != [] {
      ParsePartsOfTexts(ns[1..]);
      DigitsValueOfNatToString(ns[0]);
      assert Texts(ns)[0] == NatToString(ns[0]) && Texts(ns)[1..] == Texts(ns[1..]);
      assert ParseInt(Texts(ns)[0]) == Some(ns[0] as int);
      assert ns == [ns[0]] + ns[1..];
    }
  }

  lemma {:induction false} TextsHaveNoDot(ns: seq<nat>)
    ensures forall i :: 0 <= i < |Texts(ns)| ==> '.' !in Texts(ns)[i]
  {
    if ns != [] {
      TextsHaveNoDot(ns[1..]);
      var s := NatToString(ns[0]);
      assert forall k :: 0 <= k < |s| ==> s[k] != '.';
    }
  }

  /** Parsing reads back the components a version string was written from. */
  lemma ParseFormatRoundTrip(ns: seq<nat>)
    requires |ns| >= 1
    ensures ParseVersion(FormatVersion(ns)) == ns
  {
    TextsHaveNoDot(ns);
    SplitJoin(Texts(ns), '.');
    ParsePartsOfTexts(ns);
  }

  // ---------------------------------------------------------------------------------------
  // compare_versions

  /** Component `i` of a version padded with zeros on the right. */
  function At(v: seq<int>, i: nat): int {
    if i < |v| then v[i] else 0
  }

  function Max(x: nat, y: nat): nat {
    if x > y then x else y
  }

  /** The comparison of components `i .. n-1`: the first difference decides, none means equal. */
  function CompareFrom(a: seq<int>, b: seq<int>, i: nat, n: nat): (r: int)
    ensures r == -1 || r == 0 || r == 1
    decreases n - i
  {
    if i >= n then 0
    else if At(a, i) < At(b, i) then -1
    else if At(a, i) > At(b, i) then 1
    else CompareFrom(a, b, i + 1, n)
  }

  /** -1, 0 or 1 as `a` is older than, the same as, or newer than `b`. */
  function Compare(a: seq<int>, b: seq<int>): (r: int)
    ensures r == -1 || r == 0 || r == 1
  {
    CompareFrom(a, b, 0, Max(|a|, |b|))
  }

  /** `compare_versions`: parse both, pad the shorter with zeros, compare component by component. */
  method CompareVersions(version1: string, version2: string) returns (r: int)
    ensures r == Compare(ParseVersion(version1), ParseVersion(version2))
  {
    var v1Parts := ParseVersion(version1);
    var v2Parts := ParseVersion(version2);
    ghost var a, b := v1Parts, v2Parts;
    var maxLen := if |v1Parts| > |v2Parts| then |v1Parts| else |v2Parts|;
    v1Parts := v1Parts + seq(maxLen - |v1Parts|, _ => 0);
    v2Parts := v2Parts + seq(maxLen - |v2Parts|, _ => 0);
    for i := 0 to maxLen
      invariant CompareFrom(a, b, i, maxLen) == Compare(a, b)
    {
      assert v1Parts[i] == At(a, i) && v2Parts[i] == At(b, i);
      if v1Parts[i] < v2Parts[i] {
        return -1;
      } else if v1Parts[i] > v2Parts[i] {
        return 1;
      }
    }
    return 0;
  }

  lemma {:induction false} CompareFromZero(a: seq<int>, b: seq<int>, i: nat, n: nat)
    ensures CompareFrom(a, b, i, n) == 0 <==> forall j :: i <= j < n ==> At(a, j) == At(b, j)
    decreases n - i
  {
    if i < n {
      CompareFromZero(a, b, i + 1, n);
    }
  }

  lemma {:induction false} CompareFromOne(a: seq<int>, b: seq<int>, i: nat, n: nat)
    ensures CompareFrom(a, b, i, n) == 1 <==>
      exists j :: i <= j < n && At(a, j) > At(b, j) && forall k :: i <= k < j ==> At(a, k) == At(b, k)
    decreases n - i
  {
    if i < n {
      CompareFromOne(a, b, i + 1, n);
      if At(a, i) == At(b, i) && CompareFrom(a, b, i + 1, n) == 1 {
        var j :| i + 1 <= j < n && At(a, j) > At(b, j) && forall k :: i + 1 <= k < j ==> At(a, k) == At(b, k);
        assert forall k :: i <= k < j ==> At(a, k) == At(b, k);
      }
      if exists j :: i <= j < n && At(a, j) > At(b, j) && forall k :: i <= k < j ==> At(a, k) == At(b, k) {
        var j :| i <= j < n && At(a, j) > At(b, j) && forall k :: i <= k < j ==> At(a, k) == At(b, k);
        if j > i {
          assert At(a, i) == At(b, i);
        }
      }
    }
  }

  lemma {:induction false} CompareFromSwap(a: seq<int>, b: seq<int>, i: nat, n: nat)
    ensures CompareFrom(b, a, i, n) == -CompareFrom(a, b, i, n)
    decreases n - i
  {
    if i < n {
      CompareFromSwap(a, b, i + 1, n);
    }
  }

  lemma {:induction false} CompareFromTransitive(a: seq<int>, b: seq<int>, c: seq<int>, i: nat, n: nat)
    requires CompareFrom(a, b, i, n) == 1 && CompareFrom(b, c, i, n) == 1
    ensures CompareFrom(a, c, i, n) == 1
    decreases n - i
  {
    if At(a, i) == At(b, i) && At(b, i) == At(c, i) {
      CompareFromTransitive(a, b, c, i + 1, n);
    }
  }

  /** Comparing over more components than either version has changes nothing. */
  lemma {:induction false} CompareFromBeyond(a: seq<int>, b: seq<int>, i: nat, n: nat, n2: nat)
    requires Max(|a|, |b|) <= n <= n2
    ensures CompareFrom(a, b, i, n2) == CompareFrom(a, b, i, n)
    decreases n2 - i
  {
    if i < n2 {
      CompareFromBeyond(a, b, i + 1, n, n2);
    }
  }

  /** Two versions compare equal exactly when they agree once padded with zeros. */
  lemma CompareEqual(a: seq<int>, b: seq<int>)
    ensures Compare(a, b) == 0 <==> forall j: nat :: At(a, j) == At(b, j)
  {
    CompareFromZero(a, b, 0, Max(|a|, |b|));
  }

  /** `a` is newer than `b` exactly when at the first component where they differ, `a`'s is larger. */
  lemma CompareNewer(a: seq<int>, b: seq<int>)
    ensures Compare(a, b) == 1 <==>
      exists j: nat :: At(a, j) > At(b, j) && forall k: nat :: k < j ==> At(a, k) == At(b, k)
  {
    CompareFromOne(a, b, 0, Max(|a|, |b|));
  }

  /** Swapping the arguments negates the result. */
  lemma CompareAntisymmetric(a: seq<int>, b: seq<int>)
    ensures Compare(b, a) == -Compare(a, b)
  {
    CompareFromSwap(a, b, 0, Max(|a|, |b|));
  }

  /** Every version compares equal to itself. */
  lemma CompareReflexive(a: seq<int>)
    ensures Compare(a, a) == 0
  {
    CompareFromZero(a, a, 0, |a|);
  }

  /** "Newer than" is transitive. */
  lemma CompareTransitive(a: seq<int>, b: seq<int>, c: seq<int>)
    requires Compare(a, b) == 1 && Compare(b, c) == 1
    ensures Compare(a, c) == 1
  {
    var n := Max(Max(|a|, |b|), |c|);
    CompareFromBeyond(a, b, 0, Max(|a|, |b|), n);
    CompareFromBeyond(b, c, 0, Max(|b|, |c|), n);
    CompareFromBeyond(a, c, 0, Max(|a|, |c|), n);
    CompareFromTransitive(a, b, c, 0, n);
  }

  /** A trailing zero component does not matter: "1.2" and "1.2.0" are the same version. */
  lemma CompareIgnoresTrailingZero(a: seq<int>, b: seq<int>)
    ensures Compare(a + [0], b) == Compare(a, b)
  {
    var a2 := a + [0];
    var n := Max(|a2|, |b|);
    CompareFromBeyond(a, b, 0, Max(|a|, |b|), n);
    assert forall j: nat :: At(a2, j) == At(a, j);
    CompareFromSame(a2, a, b, 0, n);
  }

  lemma {:induction false} CompareFromSame(a: seq<int>, a2: seq<int>, b: seq<int>, i: nat, n: nat)
    requires forall j: nat :: At(a, j) == At(a2, j)
    ensures CompareFrom(a, b, i, n) == CompareFrom(a2, b, i, n)
    decreases n - i
  {
    if i < n {
      CompareFromSame(a, a2, b, i + 1, n);
    }
  }

  // ---------------------------------------------------------------------------------------
  // The manager

  /** The record used when the version file cannot be read or parsed. */
  const DefaultData: map<string, string> := map[
    "version" := "0.0.0",
    "app_name" := "EXIF Cleaner",
    "description" := "A tool to batch remove EXIF information from images",
    "repository" := "https://github.com/username/clear_exif"]

  /** `dict.get(key, default)`. */
  function Get(data: map<string, string>, key: string, default: string): string {
    if key in data then data[key] else default
  }

  class VersionManager {
    const versionFile: string
    var versionData: map<string, string>

    /**
     * `VersionManager(version_file_path)`: `basePath` is the bundle or project directory,
     * `loaded` the parsed file (None when opening or parsing failed).
     */
    constructor (versionFilePath: Option<string>, basePath: string, loaded: Option<map<string, string>>)
      ensures versionFilePath.Some? && versionFilePath.value != "" ==> versionFile == versionFilePath.value
      ensures versionFilePath.None? || versionFilePath == Some("") ==> versionFile == PathJoin(PathJoin(basePath, "config"), "version.json")
      ensures loaded.Some? ==> versionData == loaded.value
      ensures loaded.None? ==> versionData == DefaultData
    {
      versionFile := if versionFilePath.Some? && versionFilePath.value != "" then versionFilePath.value
                     else PathJoin(PathJoin(basePath, "config"), "version.json");
      versionData := if loaded.Some? then loaded.value else DefaultData;
    }

    /** `get_current_version`. */
    function CurrentVersion(): (r: string)
      reads this
      ensures "version" in versionData ==> r == versionData["version"]
      ensures "version" !in versionData ==> r == "0.0.0"
    {
      Get(versionData, "version", "0.0.0")
    }

    /** `get_app_name`. */
    function AppName(): (r: string)
      reads this
      ensures "app_name" in versionData ==> r == versionData["app_name"]
      ensures "app_name" !in versionData ==> r == "EXIF Cleaner"
    {
      Get(versionData, "app_name", "EXIF Cleaner")
    }

    /** `get_description`: note the empty default, unlike the loader's fallback record. */
    function Description(): (r: string)
      reads this
      ensures "description" in versionData ==> r == versionData["description"]
      ensures "description" !in versionData ==> r == ""
    {
      Get(versionData, "description", "")
    }

    /** `get_repository_url`. */
    function RepositoryUrl(): (r: string)
      reads this
      ensures "repository" in versionData ==> r == versionData["repository"]
      ensures "repository" !in versionData ==> r == ""
    {
      Get(versionData, "repository", "")
    }

    /** `is_newer_version`: the remote version compares greater than the current one. */
    method IsNewerVersion(remoteVersion: string) returns (r: bool)
      ensures r <==> Compare(ParseVersion(remoteVersion), ParseVersion(CurrentVersion())) == 1
      ensures remoteVersion == CurrentVersion() ==> !r
    {
      CompareReflexive(ParseVersion(CurrentVersion()));
      var c := CompareVersions(remoteVersion, CurrentVersion());
      r := c == 1;
    }

    /** `get_version_info`: the four getters under their report names. */
    function VersionInfo(): (info: map<string, string>)
      reads this
      ensures info.Keys == {"current_version", "app_name", "description", "repository"}
      ensures info["current_version"] == CurrentVersion() && info["app_name"] == AppName()
      ensures info["description"] == Description() && info["repository"] == RepositoryUrl()
    {
      map["current_version" := CurrentVersion(), "app_name" := AppName(),
          "description" := Description(), "repository" := RepositoryUrl()]
    }

    /**
     * `update_version_file`: merge the new fields into the record, then write it out.
     * The merge happens before the write, so it stays even when the write fails.
     */
    method UpdateVersionFile(newVersionData: map<string, string>, writeSucceeds: bool) returns (ok: bool)
      modifies this
      ensures versionData == old(versionData) + newVersionData
      ensures forall k :: k in newVersionData ==> versionData[k] == newVersionData[k]
      ensures forall k :: k in old(versionData) && k !in newVersionData ==> versionData[k] == old(versionData)[k]
      ensures ok == writeSucceeds
    {
      versionData := versionData + newVersionData;
      ok := writeSucceeds;
    }
  }
}
