/**
 * The update checker: the GitHub "latest release" API address derived from the repository
 * URL, one check against that address turned into an update report, and a cache that makes
 * every later check return the first report without another request.
 */
module UpdateChecking {
  import opened Wrappers
  import opened Strings
  import opened Versioning

  /** `_get_api_url`: the last two path pieces of a github.com URL name the repository. */
  function ApiUrl(repositoryUrl: string): (r: string)
    ensures r != "" <==> Contains(repositoryUrl, "github.com") && |Split(repositoryUrl, '/')| >= 5
  {
    if Contains(repositoryUrl, "github.com") then
      var parts := Split(repositoryUrl, '/');
      if |parts| >= 5 then
        "https://api.github.com/repos/" + parts[|parts| - 2] + "/" + parts[|parts| - 1] + "/releases/latest"
      else ""
    else ""
  }

  lemma {:induction false} SplitPrefixed(prefix: string, rest: string, pieces: seq<string>)
    requires '/' !in prefix && Split(rest, '/') == pieces
    ensures Split(prefix + "/" + rest, '/') == [prefix] + pieces
  {
    SplitAppend(prefix, rest, '/');
    SplitNoSeparator(prefix, '/');
  }

  lemma SplitRepositoryPath(owner: string, repo: string)
    requires '/' !in owner && '/' !in repo
    ensures Split("github.com" + "/" + (owner + "/" + repo), '/') == ["github.com", owner, repo]
  {
    SplitNoSeparator(repo, '/');
    SplitPrefixed(owner, repo, [repo]);
    SplitPrefixed("github.com", owner + "/" + repo, [owner, repo]);
  }

  lemma RepositoryUrlShape(owner: string, repo: string)
    ensures "https://github.com/" + owner + "/" + repo == "https:" + "/" + ("" + "/" + ("github.com" + "/" + (owner + "/" + repo)))
  {
  }

  lemma SplitRepositoryUrl(owner: string, repo: string)
    requires '/' !in owner && '/' !in repo
    ensures Split("https://github.com/" + owner + "/" + repo, '/') == ["https:", "", "github.com", owner, repo]
  {
    var path := "github.com" + "/" + (owner + "/" + repo);
    SplitRepositoryPath(owner, repo);
    SplitPrefixed("", path, ["github.com", owner, repo]);
    SplitPrefixed("https:", "" + "/" + path, ["", "github.com", owner, repo]);
    RepositoryUrlShape(owner, repo);
  }

  /** A URL of the form https://github.com/owner/repo yields that repository's latest-release address. */
  lemma ApiUrlOfRepository(owner: string, repo: string)
    requires '/' !in owner && '/' !in repo
    ensures ApiUrl("https://github.com/" + owner + "/" + repo)
         == "https://api.github.com/repos/" + owner + "/" + repo + "/releases/latest"
  {
    SplitRepositoryUrl(owner, repo);
    RepositoryUrlMentionsGithub(owner, repo);
  }

  lemma RepositoryUrlMentionsGithub(owner: string, repo: string)
    ensures Contains("https://github.com/" + owner + "/" + repo, "github.com")
  {
    var scheme, host, rest := "https://", "github.com", "/" + owner + "/" + repo;
    var url := scheme + host + rest;
    assert url[|scheme|..|scheme| + |host|] == host;
    assert OccursAt(url, host, |scheme|);
    assert "https://github.com/" + owner + "/" + repo == url;
  }

  /** The repository of the fallback version record is checked at username/clear_exif. */
  lemma DefaultApiUrl()
    ensures ApiUrl(DefaultData["repository"]) == "https://api.github.com/repos/" + "username" + "/" + "clear_exif" + "/releases/latest"
  {
    var owner, repo := "username", "clear_exif";
    assert DefaultData["repository"] == "https://github.com/" + owner + "/" + repo;
    ApiUrlOfRepository(owner, repo);
  }

  /** How the request to the API address ended. */
  datatype Fetch =
    | NetworkFailure(message: string)  // a requests.RequestException: connection, timeout, HTTP status, bad JSON
    | OtherFailure(message: string)    // any other exception while reading the response
    | Release(tagName: string, body: string, htmlUrl: string) // the release's fields, "" where absent

  /** The report `check_for_updates` returns and caches. */
  datatype UpdateInfo =
    | Failure(error: string)
    | Report(updateAvailable: bool, currentVersion: string, latestVersion: string, releaseNotes: string, releaseUrl: string)
  {
    /** `result.get('update_available', False)`. */
    function UpdateAvailable(): bool { Report? && updateAvailable }
    /** `result.get('latest_version', '')`. */
    function LatestVersion(): string { if Report? then latestVersion else "" }
    /** `result.get('release_notes', '')`. */
    function ReleaseNotes(): string { if Report? then releaseNotes else "" }
    /** `result.get('release_url', '')`. */
    function ReleaseUrl(): string { if Report? then releaseUrl else "" }
  }

  const InvalidUrl := "Invalid repository URL"
  const NoVersion := "Could not get version from GitHub release"

  /** One uncached check: the report for a request that ended as `fetch`, given the current version. */
  function Evaluate(apiUrl: string, fetch: Fetch, currentVersion: string): (r: UpdateInfo)
    ensures apiUrl == "" ==> r == Failure(InvalidUrl)
    ensures r.Report? <==> apiUrl != "" && fetch.Release? && LStrip(fetch.tagName, 'v') != ""
    ensures r.Report? ==>
      && r.latestVersion == LStrip(fetch.tagName, 'v') && r.latestVersion[0] != 'v'
      && r.currentVersion == currentVersion
      && r.releaseNotes == fetch.body && r.releaseUrl == fetch.htmlUrl
      && (r.updateAvailable <==> Compare(ParseVersion(r.latestVersion), ParseVersion(currentVersion)) == 1)
    ensures apiUrl != "" && fetch.NetworkFailure? ==> r == Failure("Network error: " + fetch.message)
    ensures apiUrl != "" && fetch.OtherFailure? ==> r == Failure("Error checking for updates: " + fetch.message)
    ensures apiUrl != "" && fetch.Release? && LStrip(fetch.tagName, 'v') == "" ==> r == Failure(NoVersion)
  {
    if apiUrl == "" then Failure(InvalidUrl)
    else match fetch
      case NetworkFailure(m) => Failure("Network error: " + m)
      case OtherFailure(m) => Failure("Error checking for updates: " + m)
      case Release(tag, body, url) =>
        var latest := LStrip(tag, 'v');
        if latest == "" then Failure(NoVersion)
        else Report(Compare(ParseVersion(latest), ParseVersion(currentVersion)) == 1, currentVersion, latest, body, url)
  }

  /** A release tagged "v" followed by a version string reports that version, and an update exactly when it is newer. */
  lemma TaggedRelease(apiUrl: string, ns: seq<nat>, body: string, url: string, currentVersion: string)
    requires apiUrl != "" && |ns| >= 1
    ensures var r := Evaluate(apiUrl, Release("v" + FormatVersion(ns), body, url), currentVersion);
      r.Report? && r.latestVersion == FormatVersion(ns)
      && (r.updateAvailable <==> Compare(ns, ParseVersion(currentVersion)) == 1)
  {
    var s := FormatVersion(ns);
    FormatStartsWithDigit(ns);
    assert ("v" + s)[1..] == s;
    ParseFormatRoundTrip(ns);
  }

  lemma {:induction false} FormatStartsWithDigit(ns: seq<nat>)
    requires |ns| >= 1
    ensures FormatVersion(ns) != [] && IsDigit(FormatVersion(ns)[0])
  {
    var t := Texts(ns);
    assert t[0] == NatToString(ns[0]);
    if |t| > 1 {
      assert Join(t, '.') == t[0] + ['.'] + Join(t[1..], '.');
    }
  }

  /** An announced update is always for a strictly newer version than the one the report records as current. */
  predicate Sound(info: UpdateInfo) {
    info.UpdateAvailable() ==> Compare(ParseVersion(info.latestVersion), ParseVersion(info.currentVersion)) == 1
  }

  class UpdateChecker {
    const versionManager: VersionManager
    const repositoryUrl: string
    const apiUrl: string
    var cache: Option<UpdateInfo>
    /** Number of requests sent to the API so far. */
    ghost var requestsSent: nat

    /** Every cached report is sound. */
    ghost predicate Valid()
      reads this
    {
      cache.Some? ==> Sound(cache.value)
    }

    /** `UpdateChecker()`, given the version manager it creates. */
    constructor (vm: VersionManager)
      ensures versionManager == vm && repositoryUrl == vm.RepositoryUrl()
      ensures apiUrl == ApiUrl(repositoryUrl)
      ensures cache == None && requestsSent == 0
      ensures Valid()
    {
      versionManager := vm;
      repositoryUrl := vm.RepositoryUrl();
      apiUrl := ApiUrl(vm.RepositoryUrl());
      cache := None;
      requestsSent := 0;
    }

    /**
     * `check_for_updates`: the cached report if there is one; otherwise one request (none
     * when the API address is empty), whose report is cached and returned.
     * `fetch` is how that request would end.
     */
    method CheckForUpdates(fetch: Fetch) returns (info: UpdateInfo)
      requires Valid()
      modifies this
      ensures Valid()
      ensures old(cache).Some? ==> info == old(cache).value && requestsSent == old(requestsSent)
      ensures old(cache).None? ==> info == Evaluate(apiUrl, fetch, versionManager.CurrentVersion())
      ensures old(cache).None? ==> requestsSent == old(requestsSent) + (if apiUrl == "" then 0 else 1)
      ensures cache == Some(info)
    {
      if cache.Some? {
        return cache.value;
      }
      if apiUrl == "" {
        info := Failure(InvalidUrl);
        cache := Some(info);
        return;
      }
      requestsSent := requestsSent + 1;
      match fetch {
        case NetworkFailure(m) =>
          info := Failure("Network error: " + m);
        case OtherFailure(m) =>
          info := Failure("Error checking for updates: " + m);
        case Release(tag, body, url) =>
          var latest := LStrip(tag, 'v');
          if latest == "" {
            info := Failure(NoVersion);
          } else {
            var current := versionManager.CurrentVersion();
            var available := versionManager.IsNewerVersion(latest);
            info := Report(available, current, latest, body, url);
          }
      }
      cache := Some(info);
    }

    /** `get_update_info`. */
    method GetUpdateInfo(fetch: Fetch) returns (info: UpdateInfo)
      requires Valid()
      modifies this
      ensures Valid()
      ensures old(cache).None? ==> cache == Some(Evaluate(apiUrl, fetch, versionManager.CurrentVersion()))
      ensures requestsSent == old(requestsSent) + (if old(cache).None? && apiUrl != "" then 1 else 0)
      ensures old(cache).Some? ==> info == old(cache).value
      ensures old(cache).None? ==> info == Evaluate(apiUrl, fetch, versionManager.CurrentVersion())
      ensures cache == Some(info)
    {
      info := CheckForUpdates(fetch);
    }

    /** `is_update_available`: true only for a report of a strictly newer release. */
    method IsUpdateAvailable(fetch: Fetch) returns (r: bool)
      requires Valid()
      modifies this
      ensures Valid()
      ensures old(cache).None? ==> cache == Some(Evaluate(apiUrl, fetch, versionManager.CurrentVersion()))
      ensures requestsSent == old(requestsSent) + (if old(cache).None? && apiUrl != "" then 1 else 0)
      ensures cache.Some? && r == cache.value.UpdateAvailable()
      ensures old(cache).Some? ==> cache == old(cache)
      ensures r ==> cache.value.Report? && Sound(cache.value)
    {
      var info := CheckForUpdates(fetch);
      r := info.UpdateAvailable();
    }

    /** `get_latest_version`. */
    method GetLatestVersion(fetch: Fetch) returns (r: string)
      requires Valid()
      modifies this
      ensures Valid()
      ensures old(cache).None? ==> cache == Some(Evaluate(apiUrl, fetch, versionManager.CurrentVersion()))
      ensures requestsSent == old(requestsSent) + (if old(cache).None? && apiUrl != "" then 1 else 0)
      ensures cache.Some? && r == cache.value.LatestVersion()
      ensures old(cache).Some? ==> cache == old(cache)
    {
      var info := CheckForUpdates(fetch);
      r := info.LatestVersion();
    }

    /** `get_release_notes`. */
    method GetReleaseNotes(fetch: Fetch) returns (r: string)
      requires Valid()
      modifies this
      ensures Valid()
      ensures old(cache).None? ==> cache == Some(Evaluate(apiUrl, fetch, versionManager.CurrentVersion()))
      ensures requestsSent == old(requestsSent) + (if old(cache).None? && apiUrl != "" then 1 else 0)
      ensures cache.Some? && r == cache.value.ReleaseNotes()
      ensures old(cache).Some? ==> cache == old(cache)
    {
      var info := CheckForUpdates(fetch);
      r := info.ReleaseNotes();
    }

    /** `get_release_url`. */
    method GetReleaseUrl(fetch: Fetch) returns (r: string)
      requires Valid()
      modifies this
      ensures Valid()
      ensures old(cache).None? ==> cache == Some(Evaluate(apiUrl, fetch, versionManager.CurrentVersion()))
      ensures requestsSent == old(requestsSent) + (if old(cache).None? && apiUrl != "" then 1 else 0)
      ensures cache.Some? && r == cache.value.ReleaseUrl()
      ensures old(cache).Some? ==> cache == old(cache)
    {
      var info := CheckForUpdates(fetch);
      r := info.ReleaseUrl();
    }
  }

  /** Every report, cached or fresh, announces an update only for a strictly newer release. */
  lemma UpdateOnlyWhenNewer(apiUrl: string, fetch: Fetch, currentVersion: string)
    ensures var r := Evaluate(apiUrl, fetch, currentVersion);
      r.UpdateAvailable() ==>
        Compare(ParseVersion(r.LatestVersion()), ParseVersion(currentVersion)) == 1
        && Compare(ParseVersion(currentVersion), ParseVersion(r.LatestVersion())) == -1
  {
    var r := Evaluate(apiUrl, fetch, currentVersion);
    if r.UpdateAvailable() {
      CompareAntisymmetric(ParseVersion(r.LatestVersion()), ParseVersion(currentVersion));
    }
  }
}
