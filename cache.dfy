/** The metadata cache (`Cache` over the global `sources_cache`): per kind,
    a table from asset id to the stored form of a remote asset. */
module MetadataCache {
  import opened Common
  import opened Assets

  /** `CachedFrayToolsAssetVersion`. */
  datatype CachedVersion = CachedVersion(url: string, tag: string, changelog: string)

  /** `CachedFrayToolsAsset`: a remote asset without its kind, which the
      partition it is stored in supplies. */
  datatype CachedAsset = CachedAsset(id: string, owner: string, repo: string,
                                     versions: seq<CachedVersion>)

  datatype CacheError = KeyMissing(id: string)  // `KeyError` from a dict lookup or `pop`

  /** `asset_to_cache`. */
  function AssetToCache(a: RemoteAsset): (c: CachedAsset)
    ensures c.id == a.id && c.owner == a.owner && c.repo == a.repo
    ensures |c.versions| == |a.versions|
  {
    CachedAsset(a.id, a.owner, a.repo,
      seq(|a.versions|, i requires 0 <= i < |a.versions| =>
        CachedVersion(a.versions[i].url, a.versions[i].tag, a.versions[i].changelog)))
  }

  /** `cache_to_asset`. */
  function CacheToAsset(c: CachedAsset, kind: Kind): (a: RemoteAsset)
    ensures a.kind == kind && a.id == c.id && a.owner == c.owner && a.repo == c.repo
    ensures |a.versions| == |c.versions|
  {
    RemoteAsset(kind, c.id, c.owner, c.repo,
      seq(|c.versions|, i requires 0 <= i < |c.versions| =>
        AssetVersion(c.versions[i].url, c.versions[i].tag, c.versions[i].changelog)))
  }

  /** Storing and reading back under the asset's own kind loses nothing. */
  lemma AssetRoundTrip(a: RemoteAsset)
    ensures CacheToAsset(AssetToCache(a), a.kind) == a
  {
    assert CacheToAsset(AssetToCache(a), a.kind).versions == a.versions;
  }

  /** A stored record read back under any kind is stored back unchanged. */
  lemma RecordRoundTrip(c: CachedAsset, kind: Kind)
    ensures AssetToCache(CacheToAsset(c, kind)) == c
  {
    assert AssetToCache(CacheToAsset(c, kind)).versions == c.versions;
  }

  class Cache {
    var plugins: map<string, CachedAsset>
    var templates: map<string, CachedAsset>

    /** Every record is stored under its own id. `add` keeps this; a cache
        file edited by hand need not satisfy it. */
    ghost predicate Keyed()
      reads this
    {
      && (forall k :: k in plugins ==> plugins[k].id == k)
      && (forall k :: k in templates ==> templates[k].id == k)
    }

    /** The table of one kind. */
    function Partition(kind: Kind): map<string, CachedAsset>
      reads this
    {
      match kind
      case Plugin => plugins
      case Template => templates
    }

    /** The empty cache the program starts with. */
    constructor ()
      ensures plugins == map[] && templates == map[]
      ensures Keyed()
    {
      plugins, templates := map[], map[];
    }

    /** `clear`: both tables become empty. */
    method Clear()
      modifies this
      ensures plugins == map[] && templates == map[]
      ensures Keyed()
    {
      plugins, templates := map[], map[];
    }

    /** `delete`: `pop` without a default, so an absent id raises and
        nothing changes. */
    method Delete(id: string, kind: Kind) returns (r: Outcome<CacheError>)
      modifies this
      ensures old(id in Partition(kind)) ==> r == Pass && Partition(kind) == old(Partition(kind)) - {id}
      ensures old(id !in Partition(kind)) ==> r == Fail(KeyMissing(id)) && Partition(kind) == old(Partition(kind))
      ensures Partition(Other(kind)) == old(Partition(Other(kind)))
      ensures old(Keyed()) ==> Keyed()
    {
      if id !in Partition(kind) {
        return Fail(KeyMissing(id));
      }
      match kind {
        case Plugin => plugins := plugins - {id};
        case Template => templates := templates - {id};
      }
      r := Pass;
    }

    /** `add`: insert or replace the record under the asset's id. */
    method Add(asset: RemoteAsset, kind: Kind)
      modifies this
      ensures Partition(kind) == old(Partition(kind))[asset.id := AssetToCache(asset)]
      ensures Partition(Other(kind)) == old(Partition(Other(kind)))
      ensures Exists(asset.id, kind)
      ensures Get(asset.id, kind) == Ok(asset.(kind := kind))
      ensures old(Keyed()) ==> Keyed()
    {
      match kind {
        case Plugin => plugins := plugins[asset.id := AssetToCache(asset)];
        case Template => templates := templates[asset.id := AssetToCache(asset)];
      }
      AssetRoundTrip(asset.(kind := kind));
    }

    /** `exists`. */
    function Exists(id: string, kind: Kind): bool
      reads this
    {
      id in Partition(kind)
    }

    /** `get`: the stored record as an asset of the partition's kind; a
        missing id raises. */
    function Get(id: string, kind: Kind): (r: Result<RemoteAsset, CacheError>)
      reads this
      ensures r.Ok? <==> Exists(id, kind)
      ensures r.Err? ==> r.error == KeyMissing(id)
      ensures r.Ok? ==> r.value.kind == kind && AssetToCache(r.value) == Partition(kind)[id]
      ensures r.Ok? && Keyed() ==> r.value.id == id
    {
      if id in Partition(kind) then
        RecordRoundTrip(Partition(kind)[id], kind);
        Ok(CacheToAsset(Partition(kind)[id], kind))
      else Err(KeyMissing(id))
    }
  }
}
