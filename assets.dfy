/** Installed manifests, remote assets and their versions, and the rule
    `fetch_data` applies to each release of a repository. */
module Assets {
  import opened Common
  import opened Sources
  import opened Paths

  /** An installed asset: a plugin's manifest carries a version, a
      template's only its resource id. `path` is its install directory. */
  datatype Manifest =
    | PluginManifest(name: string, pluginType: string, id: string, version: string,
                     description: string, path: Path)
    | TemplateManifest(id: string, path: Path)

  /** `FrayToolsAssetVersion`. */
  datatype AssetVersion = AssetVersion(url: string, tag: string, changelog: string)

  /** `FrayToolsAsset`: the published versions of an asset, newest first. */
  datatype RemoteAsset = RemoteAsset(kind: Kind, id: string, owner: string, repo: string,
                                     versions: seq<AssetVersion>)

  /** What `fetch_data` reads of one release: the download URLs of its
      attached assets, its source-archive URL, its name and its body. */
  datatype Release = Release(assetUrls: seq<string>, zipballUrl: Option<string>,
                             name: Option<string>, body: Option<string>)

  /** The remote call failed (`GitHubException`, rate limiting included). */
  datatype FetchError = SourceFetchError(id: string)

  /** The URL a release contributes: its first attached asset, or, for a
      template only, its source archive; `None` skips the release. */
  function ReleaseUrl(r: Release, kind: Kind): (url: Option<string>)
    ensures |r.assetUrls| > 0 ==> url == Some(r.assetUrls[0])
    ensures |r.assetUrls| == 0 && kind == Plugin ==> url.None?
    ensures |r.assetUrls| == 0 && kind == Template ==> url == r.zipballUrl
  {
    if |r.assetUrls| > 0 then Some(r.assetUrls[0])
    else if kind == Template && r.zipballUrl.Some? then r.zipballUrl
    else None
  }

  /** The version a usable release becomes; name and body go through `str`. */
  function VersionOf(r: Release, url: string): AssetVersion
  {
    AssetVersion(url, PyStr(r.name), PyStr(r.body))
  }

  /** The versions the loop of `fetch_data` collects, in release order. */
  function SelectVersions(releases: seq<Release>, kind: Kind): (vs: seq<AssetVersion>)
    ensures |vs| <= |releases|
  {
    if releases == [] then []
    else
      var last := releases[|releases| - 1];
      var front := SelectVersions(releases[..|releases| - 1], kind);
      match ReleaseUrl(last, kind)
      case Some(url) => front + [VersionOf(last, url)]
      case None => front
  }

  /** Selection keeps the order of the releases. */
  lemma {:induction false} SelectVersionsAppend(a: seq<Release>, b: seq<Release>, kind: Kind)
    ensures SelectVersions(a + b, kind) == SelectVersions(a, kind) + SelectVersions(b, kind)
    decreases |b|
  {
    if b == [] {
      assert a + b == a;
    } else {
      var b' := b[..|b| - 1];
      assert (a + b)[..|a + b| - 1] == a + b';
      SelectVersionsAppend(a, b', kind);
    }
  }

  /** Every selected version comes from a release: its URL is the one that
      release contributes, its tag and changelog the release's name and body. */
  lemma {:induction false} SelectedFromRelease(releases: seq<Release>, kind: Kind, v: AssetVersion)
    requires v in SelectVersions(releases, kind)
    ensures exists r :: r in releases && ReleaseUrl(r, kind) == Some(v.url) && v == VersionOf(r, v.url)
    decreases |releases|
  {
    var front, last := releases[..|releases| - 1], releases[|releases| - 1];
    assert releases == front + [last];
    if v in SelectVersions(front, kind) {
      SelectedFromRelease(front, kind, v);
      var r :| r in front && ReleaseUrl(r, kind) == Some(v.url) && v == VersionOf(r, v.url);
      assert r in releases;
    } else {
      assert last in releases;
    }
  }

  /** A template keeps every release a plugin keeps, and more: the
      source-archive fallback only ever adds versions. */
  lemma {:induction false} TemplatesKeepMore(releases: seq<Release>)
    ensures |SelectVersions(releases, Plugin)| <= |SelectVersions(releases, Template)|
    decreases |releases|
  {
    if releases != [] {
      TemplatesKeepMore(releases[..|releases| - 1]);
    }
  }

  /** When every release has an attached asset, both kinds keep all of them. */
  lemma {:induction false} AllAttachedAllKept(releases: seq<Release>, kind: Kind)
    requires forall r :: r in releases ==> |r.assetUrls| > 0
    ensures |SelectVersions(releases, kind)| == |releases|
    decreases |releases|
  {
    if releases != [] {
      var front := releases[..|releases| - 1];
      assert forall r :: r in front ==> r in releases;
      AllAttachedAllKept(front, kind);
      assert releases[|releases| - 1] in releases;
    }
  }

  /** The `for release in releases.data` loop of `fetch_data`. */
  method CollectVersions(releases: seq<Release>, kind: Kind) returns (versions: seq<AssetVersion>)
    ensures versions == SelectVersions(releases, kind)
  {
    versions := [];
    var i := 0;
    while i < |releases|
      invariant 0 <= i <= |releases|
      invariant versions == SelectVersions(releases[..i], kind)
    {
      assert releases[..i + 1][..i] == releases[..i];
      var release := releases[i];
      i := i + 1;
      var assetUrl: string;
      if |release.assetUrls| > 0 {
        assetUrl := release.assetUrls[0];
      } else if kind == Template && release.zipballUrl.Some? {
        assetUrl := release.zipballUrl.value;
      } else {
        continue;
      }
      versions := versions + [AssetVersion(assetUrl, PyStr(release.name), PyStr(release.body))];
    }
    assert releases[..i] == releases;
  }

  /** `fetch_data`, with the release listing as an input: `None` when the
      response carries no data, `Err` when the remote call raised. */
  method FetchData(config: AssetConfig, kind: Kind, response: Result<Option<seq<Release>>, string>)
    returns (r: Result<RemoteAsset, FetchError>)
    ensures response.Err? ==> r == Err(SourceFetchError(config.id))
    ensures response.Ok? ==> r.Ok?
    ensures r.Ok? ==> r.value.kind == kind && r.value.id == config.id &&
                      r.value.owner == config.owner && r.value.repo == config.repo
    ensures r.Ok? ==> r.value.versions ==
                      (if response.value.Some? then SelectVersions(response.value.value, kind) else [])
  {
    if response.Err? {
      return Err(SourceFetchError(config.id));
    }
    var versions: seq<AssetVersion> := [];
    if response.value.Some? {
      versions := CollectVersions(response.value.value, kind);
    }
    r := Ok(RemoteAsset(kind, config.id, config.owner, config.repo, versions));
  }

  /** `get_changelog`, with Python's indexing. */
  function GetChangelog(asset: RemoteAsset, index: int): (c: Option<string>)
    ensures c.Some? <==> -|asset.versions| <= index < |asset.versions|
    ensures 0 <= index < |asset.versions| ==> c == Some(asset.versions[index].changelog)
    ensures -|asset.versions| <= index < 0 ==> c == Some(asset.versions[|asset.versions| + index].changelog)
  {
    match PyIndex(asset.versions, index)
    case Some(v) => Some(v.changelog)
    case None => None
  }
}
