/** Reconciliation: the entries built from the three id-keyed views of one
    kind (configured sources, installed manifests, remote assets), and the
    affordances the presentation layer offers for an entry. */
module Entries {
  import opened Common
  import opened Sources
  import opened Assets
  import opened Paths
  import opened Dicts
  import opened Strings

  /** `AssetEntry`: at most one of each view. */
  datatype AssetEntry = AssetEntry(manifest: Option<Manifest>, config: Option<AssetConfig>,
                                   asset: Option<RemoteAsset>, kind: Kind)

  /** `AssetEntry.__init__`: of the two manifest arguments, only the one
      passed for the entry's kind is kept. */
  function NewEntry(pluginManifest: Option<Manifest>, templateManifest: Option<Manifest>,
                    config: Option<AssetConfig>, asset: Option<RemoteAsset>, kind: Kind): (e: AssetEntry)
    ensures e.kind == kind && e.config == config && e.asset == asset
    ensures e.manifest.Some? ==> e.manifest == pluginManifest || e.manifest == templateManifest
    ensures kind == Plugin ==> e.manifest == pluginManifest
    ensures kind == Template ==> e.manifest == templateManifest
  {
    var manifest :=
      if kind == Plugin && pluginManifest.Some? then pluginManifest
      else if kind == Template && templateManifest.Some? then templateManifest
      else None;
    AssetEntry(manifest, config, asset, kind)
  }

  /** The id an entry goes by: its manifest's, else its remote asset's,
      else its source's. */
  function PrimaryId(e: AssetEntry): Option<string>
  {
    if e.manifest.Some? then Some(e.manifest.value.id)
    else if e.asset.Some? then Some(e.asset.value.id)
    else if e.config.Some? then Some(e.config.value.id)
    else None
  }

  /** `display_name`: a priority chain over the three views. */
  function DisplayName(e: AssetEntry): string
  {
    if e.manifest.Some? && e.kind == Plugin && e.manifest.value.PluginManifest? then
      e.manifest.value.name + " (" + e.manifest.value.id + ")"
    else if e.manifest.Some? then e.manifest.value.id
    else if e.asset.Some? then e.asset.value.id
    else if e.config.Some? then e.config.value.id
    else "unknown asset"
  }

  /** The display name shows the id the entry goes by: after the plugin's
      name in parentheses for a plugin manifest of a plugin entry, bare
      otherwise; an entry with no view at all is "unknown asset". */
  lemma DisplayNameShowsId(e: AssetEntry)
    ensures PrimaryId(e).None? ==> DisplayName(e) == "unknown asset"
    ensures e.manifest.Some? && e.kind == Plugin && e.manifest.value.PluginManifest? ==>
      DisplayName(e) == e.manifest.value.name + " (" + PrimaryId(e).value + ")"
    ensures PrimaryId(e).Some? && !(e.manifest.Some? && e.kind == Plugin && e.manifest.value.PluginManifest?) ==>
      DisplayName(e) == PrimaryId(e).value
    ensures PrimaryId(e).Some? ==>
      var id, name := PrimaryId(e).value, DisplayName(e);
      exists i :: OccursAt(name, id, i)
  {
    if e.manifest.Some? && e.kind == Plugin && e.manifest.value.PluginManifest? {
      var id, name := e.manifest.value.id, DisplayName(e);
      var i := |e.manifest.value.name| + 2;
      assert name[i..i + |id|] == id;
      assert OccursAt(name, id, i);
    } else if PrimaryId(e).Some? {
      assert DisplayName(e)[0..|PrimaryId(e).value|] == PrimaryId(e).value;
      assert OccursAt(DisplayName(e), PrimaryId(e).value, 0);
    }
  }

  /** `is_installed(selected)`, with the content of the install marker in
      the manifest's directory as an input (`None` when it is missing or
      unreadable): the marker names the selected version; or the manifest
      has no remote asset or no source to compare with; or it is a plugin
      manifest whose version is the selected one. */
  predicate IsInstalled(e: AssetEntry, selected: Option<string>, marker: Option<string>)
  {
    var foundVersion := e.manifest.Some? && marker.Some? && selected == Some(marker.value);
    || foundVersion
    || (e.manifest.Some? && (e.asset.None? || e.config.None?))
    || (e.manifest.Some? && e.asset.Some? && e.manifest.value.PluginManifest? &&
        e.kind == Plugin && selected == Some(e.manifest.value.version))
  }

  /** `can_download(selected)`; `files` is the set of paths that exist. */
  predicate CanDownload(e: AssetEntry, selected: Option<string>, marker: Option<string>, files: set<Path>)
  {
    if selected.None? || e.config.None? then false
    else
      && !IsInstalled(e, selected, marker)
      && e.asset.Some?
      && DownloadLocationFile(e.asset.value.id, selected.value, e.kind) !in files
  }

  /** `can_uninstall(selected)`. */
  predicate CanUninstall(e: AssetEntry, selected: Option<string>, marker: Option<string>)
  {
    IsInstalled(e, selected, marker)
  }

  /** `can_install(selected)`: note the archive path is built from the
      source's id here, from the remote asset's id in `can_download`. */
  predicate CanInstall(e: AssetEntry, selected: Option<string>, marker: Option<string>, files: set<Path>)
  {
    if selected.None? || e.config.None? then false
    else
      && DownloadLocationFile(e.config.value.id, selected.value, e.kind) in files
      && !CanDownload(e, selected, marker, files)
      && !IsInstalled(e, selected, marker)
  }

  /** The rules the four affordances follow for every entry. */
  lemma AffordanceRules(e: AssetEntry, v: Option<string>, marker: Option<string>, files: set<Path>)
    ensures CanUninstall(e, v, marker) == IsInstalled(e, v, marker)
    ensures v.None? || e.config.None? ==> !CanDownload(e, v, marker, files) && !CanInstall(e, v, marker, files)
    ensures CanDownload(e, v, marker, files) ==> !IsInstalled(e, v, marker) && e.asset.Some?
    ensures CanInstall(e, v, marker, files) ==>
      && DownloadLocationFile(e.config.value.id, v.value, e.kind) in files
      && !CanDownload(e, v, marker, files) && !IsInstalled(e, v, marker)
    ensures !(CanDownload(e, v, marker, files) && CanInstall(e, v, marker, files))
    ensures IsInstalled(e, v, marker) ==> e.manifest.Some?
    ensures e.manifest.Some? && (e.asset.None? || e.config.None?) ==> IsInstalled(e, v, marker)
  {
  }

  /** For an entry whose views agree on the id, with a source, a remote
      asset and a selected version it does not have installed, exactly one
      of download and install is offered, decided by whether the archive
      is already on disk. */
  lemma DownloadOrInstall(e: AssetEntry, v: string, marker: Option<string>, files: set<Path>)
    requires e.config.Some? && e.asset.Some? && e.config.value.id == e.asset.value.id
    requires !IsInstalled(e, Some(v), marker)
    ensures var archive := DownloadLocationFile(e.config.value.id, v, e.kind);
      && (CanDownload(e, Some(v), marker, files) <==> archive !in files)
      && (CanInstall(e, Some(v), marker, files) <==> archive in files)
  {
  }

  /** The entry of an installed manifest, with the source and remote asset
      of the same id attached when there are any. */
  function InstalledEntry(m: Manifest, configMap: Dict<AssetConfig>, assetMap: Dict<RemoteAsset>, kind: Kind): AssetEntry
  {
    AssetEntry(Some(m), configMap.Get(m.id), assetMap.Get(m.id), kind)
  }

  /** The entry of a source that has no manifest, with its remote asset. */
  function UninstalledEntry(c: AssetConfig, assetMap: Dict<RemoteAsset>, kind: Kind): AssetEntry
  {
    AssetEntry(None, Some(c), assetMap.Get(c.id), kind)
  }

  /** The sources, in order, whose id is not a manifest key. */
  function ConfigsWithoutManifest(cs: seq<AssetConfig>, manifests: map<string, Manifest>): (r: seq<AssetConfig>)
    ensures |r| <= |cs|
  {
    if cs == [] then []
    else
      var front := ConfigsWithoutManifest(cs[..|cs| - 1], manifests);
      if cs[|cs| - 1].id !in manifests then front + [cs[|cs| - 1]] else front
  }

  /** The filter keeps source order: it distributes over concatenation. */
  lemma {:induction false} ConfigsWithoutManifestAppend(a: seq<AssetConfig>, b: seq<AssetConfig>, manifests: map<string, Manifest>)
    ensures ConfigsWithoutManifest(a + b, manifests) ==
      ConfigsWithoutManifest(a, manifests) + ConfigsWithoutManifest(b, manifests)
    decreases |b|
  {
    if b == [] {
      assert a + b == a;
    } else {
      var b' := b[..|b| - 1];
      assert (a + b)[..|a + b| - 1] == a + b';
      ConfigsWithoutManifestAppend(a, b', manifests);
    }
  }

  /** Exactly the sources without a manifest remain. */
  lemma {:induction false} ConfigsWithoutManifestMembers(cs: seq<AssetConfig>, manifests: map<string, Manifest>, c: AssetConfig)
    ensures c in ConfigsWithoutManifest(cs, manifests) <==> c in cs && c.id !in manifests
    decreases |cs|
  {
    if cs != [] {
      ConfigsWithoutManifestMembers(cs[..|cs| - 1], manifests, c);
      assert cs == cs[..|cs| - 1] + [cs[|cs| - 1]];
    }
  }

  /** Sources with distinct ids stay distinct after filtering. */
  lemma {:induction false} ConfigsWithoutManifestDistinct(cs: seq<AssetConfig>, manifests: map<string, Manifest>)
    requires !IdRepeated(cs)
    ensures !IdRepeated(ConfigsWithoutManifest(cs, manifests))
    decreases |cs|
  {
    if cs != [] {
      var front, last := cs[..|cs| - 1], cs[|cs| - 1];
      ConfigsWithoutManifestDistinct(front, manifests);
      var r' := ConfigsWithoutManifest(front, manifests);
      assert cs[..|cs| - 1] == front;
      forall c | c in r' ensures c.id != last.id {
        ConfigsWithoutManifestMembers(front, manifests, c);
        var k :| 0 <= k < |front| && front[k] == c;
        assert cs[k] == c;
      }
      var r := ConfigsWithoutManifest(cs, manifests);
      if last.id !in manifests {
        assert r == r' + [last];
        forall i, j | 0 <= i < j < |r| ensures r[i].id != r[j].id {
          if j == |r'| {
            assert r[i] == r'[i] && r'[i] in r';
            assert r[j] == last;
          } else {
            assert r[i] == r'[i] && r[j] == r'[j];
            assert r'[i].id != r'[j].id;
          }
        }
      } else {
        assert r == r';
      }
    }
  }

  /** The entries for the installed manifests, in manifest order. */
  function InstalledEntries(kind: Kind, configMap: Dict<AssetConfig>, manifestMap: Dict<Manifest>,
                            assetMap: Dict<RemoteAsset>): (r: seq<AssetEntry>)
    requires manifestMap.Valid()
    ensures |r| == |manifestMap.keys|
    ensures forall i :: 0 <= i < |r| ==>
      r[i] == InstalledEntry(manifestMap.entries[manifestMap.keys[i]], configMap, assetMap, kind)
  {
    var ms := manifestMap.Values();
    seq(|ms|, i requires 0 <= i < |ms| => InstalledEntry(ms[i], configMap, assetMap, kind))
  }

  /** The entries for the sources without a manifest, in source order. */
  function UninstalledEntries(kind: Kind, configMap: Dict<AssetConfig>, manifestMap: Dict<Manifest>,
                              assetMap: Dict<RemoteAsset>): (r: seq<AssetEntry>)
    requires configMap.Valid()
    ensures |r| == |ConfigsWithoutManifest(configMap.Values(), manifestMap.entries)|
    ensures forall j :: 0 <= j < |r| ==>
      r[j] == UninstalledEntry(ConfigsWithoutManifest(configMap.Values(), manifestMap.entries)[j], assetMap, kind)
  {
    var us := ConfigsWithoutManifest(configMap.Values(), manifestMap.entries);
    seq(|us|, j requires 0 <= j < |us| => UninstalledEntry(us[j], assetMap, kind))
  }

  /** A source left without a manifest is one of the sources, and its id
      is not a manifest key. */
  lemma UnmatchedSource(configMap: Dict<AssetConfig>, manifestMap: Dict<Manifest>, c: AssetConfig)
    requires configMap.Valid()
    requires c in ConfigsWithoutManifest(configMap.Values(), manifestMap.entries)
    ensures c in configMap.entries.Values && c.id !in manifestMap.entries
  {
    var cs := configMap.Values();
    ConfigsWithoutManifestMembers(cs, manifestMap.entries, c);
    var k :| 0 <= k < |cs| && cs[k] == c;
    assert c == configMap.entries[configMap.keys[k]];
  }

  /** What `generate_entries` returns: one entry per manifest, in manifest
      order, then one per source without a manifest, in source order. */
  ghost function Reconcile(kind: Kind, configMap: Dict<AssetConfig>, manifestMap: Dict<Manifest>,
                           assetMap: Dict<RemoteAsset>): (r: seq<AssetEntry>)
    requires configMap.Valid() && manifestMap.Valid() && assetMap.Valid()
    ensures forall e :: e in r ==> e.kind == kind && (e.manifest.Some? || e.config.Some?)
    ensures forall e :: e in r && e.manifest.Some? ==>
      && (e.config.Some? <==> e.manifest.value.id in configMap.entries)
      && (e.asset.Some? <==> e.manifest.value.id in assetMap.entries)
    ensures forall e :: e in r && e.manifest.None? ==>
      && e.config.value in configMap.entries.Values
      && e.config.value.id !in manifestMap.entries
      && (e.asset.Some? <==> e.config.value.id in assetMap.entries)
    ensures forall i, j :: 0 <= i < j < |r| && r[i].manifest.None? ==> r[j].manifest.None?
  {
    var installed := InstalledEntries(kind, configMap, manifestMap, assetMap);
    var uninstalled := UninstalledEntries(kind, configMap, manifestMap, assetMap);
    var us := ConfigsWithoutManifest(configMap.Values(), manifestMap.entries);
    forall e | e in uninstalled
      ensures e.config.Some? && e.config.value in us
    {
      var j :| 0 <= j < |uninstalled| && uninstalled[j] == e;
      assert us[j] in us;
    }
    forall c | c in us ensures c in configMap.entries.Values && c.id !in manifestMap.entries {
      UnmatchedSource(configMap, manifestMap, c);
    }
    installed + uninstalled
  }

  /** The id of every view an entry holds. */
  ghost predicate IdsAgree(e: AssetEntry)
  {
    && (e.manifest.Some? && e.config.Some? ==> e.config.value.id == e.manifest.value.id)
    && (e.manifest.Some? && e.asset.Some? ==> e.asset.value.id == e.manifest.value.id)
    && (e.config.Some? && e.asset.Some? ==> e.asset.value.id == e.config.value.id)
  }

  /** The id an entry of `Reconcile` is built around. */
  function EntryId(e: AssetEntry): string
  {
    if e.manifest.Some? then e.manifest.value.id
    else if e.config.Some? then e.config.value.id
    else ""
  }

  /** Where each entry of `Reconcile` comes from: position `i < |keys|`
      holds the manifest under the `i`-th manifest key, the rest hold the
      sources without a manifest. */
  lemma ReconcileAt(kind: Kind, configMap: Dict<AssetConfig>, manifestMap: Dict<Manifest>,
                    assetMap: Dict<RemoteAsset>, i: nat)
    requires configMap.Valid() && manifestMap.Valid() && assetMap.Valid()
    requires i < |Reconcile(kind, configMap, manifestMap, assetMap)|
    ensures var e := Reconcile(kind, configMap, manifestMap, assetMap)[i];
      if i < |manifestMap.keys| then
        e == InstalledEntry(manifestMap.entries[manifestMap.keys[i]], configMap, assetMap, kind)
      else
        var us := ConfigsWithoutManifest(configMap.Values(), manifestMap.entries);
        i - |manifestMap.keys| < |us| && e == UninstalledEntry(us[i - |manifestMap.keys|], assetMap, kind)
  {
    var installed := InstalledEntries(kind, configMap, manifestMap, assetMap);
    var uninstalled := UninstalledEntries(kind, configMap, manifestMap, assetMap);
    assert Reconcile(kind, configMap, manifestMap, assetMap) == installed + uninstalled;
  }

  /** With the three maps keyed by the ids of their values, as the
      builders make them, the views held by every entry agree on the id. */
  lemma ReconcileIdsAgree(kind: Kind, configMap: Dict<AssetConfig>, manifestMap: Dict<Manifest>,
                          assetMap: Dict<RemoteAsset>)
    requires configMap.Valid() && manifestMap.Valid() && assetMap.Valid()
    requires WellKeyed(configMap, (c: AssetConfig) => c.id)
    requires WellKeyed(manifestMap, (m: Manifest) => m.id)
    requires WellKeyed(assetMap, (a: RemoteAsset) => a.id)
    ensures forall e :: e in Reconcile(kind, configMap, manifestMap, assetMap) ==> IdsAgree(e)
  {
    var r := Reconcile(kind, configMap, manifestMap, assetMap);
    forall e | e in r ensures IdsAgree(e) {
      var i :| 0 <= i < |r| && r[i] == e;
      ReconcileAt(kind, configMap, manifestMap, assetMap, i);
    }
  }

  /** With well-keyed maps, no two entries of `Reconcile` share an id. */
  lemma ReconcileDistinct(kind: Kind, configMap: Dict<AssetConfig>, manifestMap: Dict<Manifest>,
                          assetMap: Dict<RemoteAsset>)
    requires configMap.Valid() && manifestMap.Valid() && assetMap.Valid()
    requires WellKeyed(configMap, (c: AssetConfig) => c.id)
    requires WellKeyed(manifestMap, (m: Manifest) => m.id)
    ensures forall i, j :: 0 <= i < j < |Reconcile(kind, configMap, manifestMap, assetMap)| ==>
      EntryId(Reconcile(kind, configMap, manifestMap, assetMap)[i]) !=
      EntryId(Reconcile(kind, configMap, manifestMap, assetMap)[j])
  {
    var r := Reconcile(kind, configMap, manifestMap, assetMap);
    var n := |manifestMap.keys|;
    var cs := configMap.Values();
    var us := ConfigsWithoutManifest(cs, manifestMap.entries);
    assert !IdRepeated(cs) by {
      forall i, j | 0 <= i < j < |cs| ensures cs[i].id != cs[j].id {
        assert cs[i].id == configMap.keys[i] && cs[j].id == configMap.keys[j];
      }
    }
    ConfigsWithoutManifestDistinct(cs, manifestMap.entries);
    forall i, j | 0 <= i < j < |r| ensures EntryId(r[i]) != EntryId(r[j]) {
      EntryIdAt(kind, configMap, manifestMap, assetMap, i);
      EntryIdAt(kind, configMap, manifestMap, assetMap, j);
      if i < n <= j {
        UnmatchedSource(configMap, manifestMap, us[j - n]);
      }
    }
  }

  /** The id of the entry at position `i` of `Reconcile`: the `i`-th manifest
      key, or the id of a source without a manifest. */
  lemma EntryIdAt(kind: Kind, configMap: Dict<AssetConfig>, manifestMap: Dict<Manifest>,
                  assetMap: Dict<RemoteAsset>, i: nat)
    requires configMap.Valid() && manifestMap.Valid() && assetMap.Valid()
    requires WellKeyed(manifestMap, (m: Manifest) => m.id)
    requires i < |Reconcile(kind, configMap, manifestMap, assetMap)|
    ensures var us := ConfigsWithoutManifest(configMap.Values(), manifestMap.entries);
      var n := |manifestMap.keys|;
      var k := EntryId(Reconcile(kind, configMap, manifestMap, assetMap)[i]);
      if i < n then k == manifestMap.keys[i] else i - n < |us| && k == us[i - n].id
  {
    ReconcileAt(kind, configMap, manifestMap, assetMap, i);
  }

  /** The id of an entry of `Reconcile` is a manifest key or a source key. */
  lemma EntryIdIsKey(kind: Kind, configMap: Dict<AssetConfig>, manifestMap: Dict<Manifest>,
                     assetMap: Dict<RemoteAsset>, i: nat)
    requires configMap.Valid() && manifestMap.Valid() && assetMap.Valid()
    requires WellKeyed(configMap, (c: AssetConfig) => c.id)
    requires WellKeyed(manifestMap, (m: Manifest) => m.id)
    requires i < |Reconcile(kind, configMap, manifestMap, assetMap)|
    ensures var k := EntryId(Reconcile(kind, configMap, manifestMap, assetMap)[i]);
      k in manifestMap.entries || k in configMap.entries
  {
    var n := |manifestMap.keys|;
    ReconcileAt(kind, configMap, manifestMap, assetMap, i);
    if i >= n {
      var c := ConfigsWithoutManifest(configMap.Values(), manifestMap.entries)[i - n];
      UnmatchedSource(configMap, manifestMap, c);
      var key :| key in configMap.entries && configMap.entries[key] == c;
      assert c.id == key;
    }
  }

  /** With well-keyed maps, the ids of the entries of `Reconcile` are
      exactly the manifest keys together with the source keys. */
  lemma ReconcileCovers(kind: Kind, configMap: Dict<AssetConfig>, manifestMap: Dict<Manifest>,
                        assetMap: Dict<RemoteAsset>, k: string)
    requires configMap.Valid() && manifestMap.Valid() && assetMap.Valid()
    requires WellKeyed(configMap, (c: AssetConfig) => c.id)
    requires WellKeyed(manifestMap, (m: Manifest) => m.id)
    ensures (k in manifestMap.entries || k in configMap.entries) <==>
      exists e :: e in Reconcile(kind, configMap, manifestMap, assetMap) && EntryId(e) == k
  {
    var r := Reconcile(kind, configMap, manifestMap, assetMap);
    if k in manifestMap.entries {
      ManifestKeyCovered(kind, configMap, manifestMap, assetMap, k);
    } else if k in configMap.entries {
      SourceKeyCovered(kind, configMap, manifestMap, assetMap, k);
    } else {
      forall e | e in r ensures EntryId(e) != k {
        var i :| 0 <= i < |r| && r[i] == e;
        EntryIdIsKey(kind, configMap, manifestMap, assetMap, i);
      }
    }
  }

  /** Every manifest key is the id of an installed entry. */
  lemma ManifestKeyCovered(kind: Kind, configMap: Dict<AssetConfig>, manifestMap: Dict<Manifest>,
                           assetMap: Dict<RemoteAsset>, k: string)
    requires configMap.Valid() && manifestMap.Valid() && assetMap.Valid()
    requires WellKeyed(manifestMap, (m: Manifest) => m.id)
    requires k in manifestMap.entries
    ensures exists e :: e in Reconcile(kind, configMap, manifestMap, assetMap) && EntryId(e) == k
  {
    var r := Reconcile(kind, configMap, manifestMap, assetMap);
    var i :| 0 <= i < |manifestMap.keys| && manifestMap.keys[i] == k;
    ReconcileAt(kind, configMap, manifestMap, assetMap, i);
    assert r[i] in r;
  }

  /** Every source key without a manifest is the id of an uninstalled entry. */
  lemma SourceKeyCovered(kind: Kind, configMap: Dict<AssetConfig>, manifestMap: Dict<Manifest>,
                         assetMap: Dict<RemoteAsset>, k: string)
    requires configMap.Valid() && manifestMap.Valid() && assetMap.Valid()
    requires WellKeyed(configMap, (c: AssetConfig) => c.id)
    requires k in configMap.entries && k !in manifestMap.entries
    ensures exists e :: e in Reconcile(kind, configMap, manifestMap, assetMap) && EntryId(e) == k
  {
    var r := Reconcile(kind, configMap, manifestMap, assetMap);
    var n := |manifestMap.keys|;
    var cs := configMap.Values();
    var us := ConfigsWithoutManifest(cs, manifestMap.entries);
    var i :| 0 <= i < |cs| && configMap.keys[i] == k;
    ConfigsWithoutManifestMembers(cs, manifestMap.entries, cs[i]);
    var j :| 0 <= j < |us| && us[j] == cs[i];
    ReconcileAt(kind, configMap, manifestMap, assetMap, n + j);
    assert r[n + j] in r;
  }

  /** `generate_entries`: entries for the installed manifests, then for
      the sources without a manifest; then sources and remote assets are
      attached by id, one entry at a time. */
  method GenerateEntries(kind: Kind, configMap: Dict<AssetConfig>, manifestMap: Dict<Manifest>,
                         assetMap: Dict<RemoteAsset>) returns (entries: seq<AssetEntry>)
    requires configMap.Valid() && manifestMap.Valid() && assetMap.Valid()
    ensures entries == Reconcile(kind, configMap, manifestMap, assetMap)
  {
    var ms := manifestMap.Values();
    var installed := seq(|ms|, j requires 0 <= j < |ms| =>
      if kind == Plugin then NewEntry(Some(ms[j]), None, None, None, kind)
      else NewEntry(None, Some(ms[j]), None, None, kind));
    var us := ConfigsWithoutManifest(configMap.Values(), manifestMap.entries);
    var uninstalled := seq(|us|, j requires 0 <= j < |us| => NewEntry(None, None, Some(us[j]), None, kind));

    var i := 0;
    while i < |installed|
      invariant 0 <= i <= |installed| == |ms|
      invariant forall j :: 0 <= j < i ==> installed[j] == InstalledEntry(ms[j], configMap, assetMap, kind)
      invariant forall j :: i <= j < |ms| ==> installed[j] == AssetEntry(Some(ms[j]), None, None, kind)
    {
      var entry := installed[i];
      var id := entry.manifest.value.id;
      if id in configMap.entries {
        entry := entry.(config := Some(configMap.entries[id]));
      }
      if id in assetMap.entries {
        entry := entry.(asset := Some(assetMap.entries[id]));
      }
      installed := installed[i := entry];
      i := i + 1;
    }
    assert installed == InstalledEntries(kind, configMap, manifestMap, assetMap);

    i := 0;
    while i < |uninstalled|
      invariant 0 <= i <= |uninstalled| == |us|
      invariant forall j :: 0 <= j < i ==> uninstalled[j] == UninstalledEntry(us[j], assetMap, kind)
      invariant forall j :: i <= j < |us| ==> uninstalled[j] == AssetEntry(None, Some(us[j]), None, kind)
    {
      var entry := uninstalled[i];
      var id := entry.config.value.id;
      if id in assetMap.entries {
        entry := entry.(asset := Some(assetMap.entries[id]));
      }
      uninstalled := uninstalled[i := entry];
      i := i + 1;
    }
    assert uninstalled == UninstalledEntries(kind, configMap, manifestMap, assetMap);

    entries := installed + uninstalled;
  }
}
