# fraytools-manager core, modelled in Dafny

fraytools-manager installs and updates FrayTools plugins and templates.
Each asset is published as GitHub releases of a configured repository.
This project models the program's logic in `main.py`, leaving out the
network, JSON and Qt layers:

- **Sources** (`sources.dfy`): the per-kind source registry
  (`SourcesConfig`). It covers the duplicate check, adding, editing and
  removing sources, and the document that is saved and loaded.
- **Assets** (`assets.dfy`): the rule `fetch_data` applies to every release.
  The first attached asset is used; templates fall back to the source
  archive; otherwise the release is skipped. It also covers the version
  accessors.
- **MetadataCache** (`cache.dfy`): the in-memory metadata cache (`Cache`),
  one table per kind.
- **Dicts** (`dicts.dfy`): Python's insertion-ordered `dict`, and the
  id-keyed builders `generate_manifest_map`, `generate_asset_map` and
  `generate_config_map`.
- **Entries** (`entries.dfy`): `AssetEntry` and its four affordance
  predicates, and `generate_entries`. That function reconciles installed
  manifests, configured sources and remote assets into one list per kind.
- **Paths** (`paths.dfy`): the deterministic archive paths
  `cache/<plugins|templates>/<id>/<id>-<tag>.zip`. `joinpath` is modelled
  as pathlib has it: an argument is split at '/', empty and "." parts are
  dropped, and an argument starting with '/' starts an absolute path. An
  id or tag holding '/' therefore spans several segments.
- **Archive** (`archive.dfy`): the root-stripping decision of
  `extract_zip_without_root`. Member names are split on '/', as section
  4.4.17.1 of PKWARE's APPNOTE.TXT (the ZIP format) prescribes. A member
  is a directory exactly when its name ends with '/', as `ZipInfo.is_dir`
  decides.
- **Install** (`install.dfy`): `install_version` over a file system that
  maps paths to contents. It covers the choice of the target directory,
  clearing a fresh one, `zipfile`'s extraction with its name sanitising,
  and the version marker.
- **Downloads** (`downloads.dfy`): the in-flight download set of the asset
  widget.
- **Strings** (`strings.dfy`): Python's `str.split` and `str.join` with a
  multi-character separator.
- **Common** (`common.dfy`): the two kinds, and the Option/Result/Outcome
  wrappers that stand for `None` and for raised exceptions.

Where the program's documentation and its code disagree, the model follows
the code:

- `contains_duplicates` never fills its id sets. So only a repeated
  (owner, repo) pair is reported, and two sources that share only an id
  pass (`Sources.SharedIdUndetected`).
- `edit_entry` ignores its `index` argument. It replaces every entry whose
  id equals the id it is given.
- `extract_zip_without_root` raises `StopIteration` when the archive has no
  single-segment directory entry. This happens even when the archive has
  several top-level directories and would otherwise be extracted verbatim.
- A GitHub failure of any kind, rate limiting included, becomes the one
  fetch error.

`on_download` reads the selection's item data again in its `finally`
block (main.py:1752) instead of reusing the key it added (main.py:1739).
This is harmless as the program stands: the selection list is filled by
`addItems` (main.py:1553), which sets no item data, so both reads give
`None` and the handler removes the key it added
(`Downloads.DownloadGuard.OnDownloadAsWritten`, `Downloads.ItemDataUnset`).
It would strand a key only if item data were ever set
(`Downloads.SelectionChangeStrandsKey`).

## Model

| member | source | states |
|---|---|---|
| Common.PyStr | main.py:425-427 | `str` of a missing release name or body is the text "None"; a present one is kept as it is |
| Common.PyIndex | main.py:464 | `versions[index]` is defined exactly for -len <= index < len; a negative index counts from the end |
| Strings.FindFirst | main.py:103 | a position found leaves room for the whole separator inside the text |
| Strings.FindFirstMeans | main.py:103 | the position found holds the separator and no earlier position does; none means it occurs nowhere |
| Strings.Split | main.py:94 | `str.split` always returns at least one part |
| Strings.SplitAtFirst | main.py:103 | splitting gives the text before the first separator, then the split of what follows it; the whole text when there is no separator |
| Strings.JoinSplit | main.py:103-105 | joining the parts of a split with the same separator gives back the original text |
| Strings.Join | main.py:105 | definition of `sep.join(parts)`; `Strings.JoinSplit` and `Strings.TailAfterFirst` state what it gives back |
| Strings.TailAfterFirst | main.py:104-105 | there is more than one part exactly when the separator occurs, and the later parts joined are the text after its first occurrence |
| Strings.FirstPartEmpty | main.py:104 | the first part is empty exactly when the text is empty or starts with the separator |
| Strings.SingleSegment | main.py:94-96 | "one part, or two with an empty second" holds exactly when '/' occurs nowhere but possibly last |
| Archive.IsRootMeans | main.py:92-98 | a member is a root entry exactly when its name ends with '/' (a directory) and has no other '/' |
| Archive.IsRoot | main.py:92-98 | definition of `_is_root` on the split name; `Archive.IsRootMeans` states its meaning |
| Archive.TopLevel | main.py:115 | the top-level segment is the name up to its first '/', or the whole name when it has none |
| Archive.TopLevelBefore | main.py:115 | the top-level segment ends at the first '/' |
| Archive.TopLevels | main.py:115 | definition of the set of top-level segments; `Archive.PlanExtraction` and `Archive.ExampleTopLevels` state how it decides renaming |
| Archive.FirstRoot | main.py:113 | the root is the first root entry in archive order; none exactly when no member is a root entry |
| Archive.RebaseNameMeans | main.py:101-107 | a member is kept exactly when the root name occurs and the text after its first occurrence is non-empty and does not repeat the root name; the new name is that text |
| Archive.RebaseName | main.py:101-107 | definition of the rename as written (split on the root name, keep a non-empty second part, join the rest); `Archive.RebaseNameMeans` states its meaning |
| Archive.RootNameDropped | main.py:104 | the root entry itself is never yielded |
| Archive.RepeatedRootNameDropped | main.py:103-106 | "pkg/pkg/a.txt" under root "pkg/" is not yielded |
| Archive.RebaseNameIntended | main.py:105-106 | a kept name is what follows the leading root name, and is non-empty |
| Archive.RebaseNameIntendedKeeps | main.py:105-106 | every path below the root keeps its path relative to the root, "pkg/pkg/a.txt" included |
| Archive.RebaseNameAgreesBelowRoot | main.py:101-107 | below the root, the code as written and the intended rename agree unless the root name repeats right after the root |
| Archive.RebasedMembers | main.py:101-107 | renaming yields at most as many members as the archive holds |
| Archive.RebasedAppend | main.py:102 | renamed members keep archive order (renaming distributes over concatenation) |
| Archive.RebasedMembership | main.py:101-107 | a member is yielded exactly when some archive member is renamed to it, keeping its kind and data |
| Archive.MembersWithoutRoot | main.py:101-107 | the renaming loop yields exactly the renamed members, in order |
| Archive.PlanExtraction | main.py:110-121 | raises without a root entry; renames exactly when there is a root and a single top-level segment; otherwise extracts verbatim |
| Archive.ExtractionPlan | main.py:110-121 | definition of the extraction decision; `Archive.PlanExtraction` is proved against it and `Archive.ExtractionPlanStripsRoot` is a worked example |
| Archive.ExtractionPlanStripsRoot | main.py:110-121 | an archive of "pkg/" and "pkg/a.txt" extracts "a.txt" alone |
| Archive.ExampleRoot | main.py:113-116 | in that archive "pkg/" is the root and "pkg" the only top-level segment |
| Archive.ExampleTopLevels | main.py:115-116 | "pkg/" and "pkg/a.txt" share the one top-level segment "pkg" |
| Archive.ExampleRebased | main.py:101-107 | rebasing that archive on "pkg/" drops the root entry and renames "pkg/a.txt" to "a.txt" |
| Dicts.Dict.Put | main.py:647 | the key then holds the new value and the other entries are those of before; a new key goes last, an existing one keeps its place |
| Dicts.Dict.PutKeepsOthers | main.py:647 | assigning one key leaves every other key's value, or absence, as it was |
| Dicts.Dict.Values | main.py:838-849 | `values()` follows key order, one value per key |
| Dicts.Mapped | main.py:233-243 | mapping values keeps the keys and their order |
| Dicts.MappedValid | main.py:233-243 | mapping values keeps the keys distinct and matching the entries |
| Dicts.MappedPut | main.py:233-243 | assigning then mapping equals mapping then assigning the mapped value |
| Dicts.MappedUpdate | main.py:233-243 | the same commutation on the underlying maps |
| Dicts.MappedByIdSnoc | main.py:233-243 | the converted dictionary over one more element is the previous one with the converted element assigned |
| Dicts.MappedByIdPrefix | main.py:233-243 | the same step for the prefixes a loop walks through |
| Dicts.FirstWithId | main.py:644-664 | the first element carrying the id, no earlier one carrying it |
| Dicts.ById | main.py:644-664 | definition of a loop `d[id] = x`; `Dicts.ByIdLastWins`, `Dicts.ByIdKeyOrder` and `Dicts.ByIdWellKeyed` state its meaning |
| Dicts.ByIdLastWins | main.py:644-664 | the keys are exactly the ids present, each mapped to the last element with that id |
| Dicts.ByIdKeyOrder | main.py:644-664 | keys are ordered by the first occurrence of their id |
| Dicts.KeyOrderNewKey | main.py:644-664 | a key first inserted by the last element comes after every earlier key, and so does its id's first occurrence |
| Dicts.FirstWithIdPrefix | main.py:644-664 | appending an element does not move the first occurrence of an id already present |
| Dicts.ByIdWellKeyed | main.py:644-664 | every value is stored under its own id |
| Dicts.BuildIdMap | main.py:644-664 | the builder loop produces the id-keyed dictionary |
| Paths.InstallDirectory | main.py:124-135 | plugins and templates install under `FrayToolsData` |
| Paths.PathParts | main.py:155-164 | the segments of a `joinpath` argument are non-empty, not "." and '/'-free |
| Paths.JoinPath | main.py:155-164 | a relative argument extends the base; one starting with '/' gives an absolute path |
| Paths.JoinOneSegment | main.py:155-164 | a '/'-free argument other than "" and "." adds exactly one segment |
| Paths.OneSegmentParts | main.py:155-164 | such an argument is a single segment |
| Paths.LeadingSegmentParts | main.py:155-164 | an argument whose first '/' follows a plain name starts with that name's segment |
| Paths.SplitPartsSlashFree | main.py:155-164 | no '/'-part of a split holds a '/' |
| Paths.DownloadLocation | main.py:155-160 | for an id that is a plain segment, `cache/<kind folder>/<id>` under the application directory |
| Paths.DownloadLocationFile | main.py:163-164 | for a plain id and a tag without '/', the download location plus the one file name `<id>-<tag>.zip` |
| Paths.ArchiveName | main.py:163-164 | definition of the file name `<id>-<tag>.zip`; `Paths.DownloadLocationFile` and `Paths.DownloadLocationFileInjective` state what it gives |
| Paths.KindFolder | main.py:155-159 | definition of the folder per kind, "plugins" or "templates"; `Paths.DownloadLocation` states the path it gives |
| Paths.DownloadLocationFileInjective | main.py:155-164 | for plain ids and tags without '/', distinct (id, tag, kind) triples never share an archive path |
| Paths.SlashedNamesCollide | main.py:155-164 | id `a` with tag `b/a/a-b-x` and id `a/a-b` with tag `x` share one archive path |
| Paths.SlashedTagPath | main.py:155-164 | the first of those archive paths, segment by segment |
| Paths.SlashedIdPath | main.py:155-164 | the second of those archive paths, segment by segment |
| Paths.CacheOutsideInstallDirectories | main.py:124-164 | for a plain id and a tag without '/', the archive lies inside no install directory |
| Sources.SharedIdUndetected | main.py:203-231 | two sources sharing only an id are not reported as duplicates |
| Sources.ScanForRepeats | main.py:207-217 | one kind's loop returns true exactly when an (owner, repo) pair repeats |
| Sources.ParseToRecords | main.py:189-191 | the records of a source list parse back to that list |
| Sources.SaveThenLoad | main.py:180-200 | loading a saved registry gives it back, or `InvalidSourceError` when a repository repeats |
| Sources.RecordsOfParsed | main.py:189-195 | records with exactly the three fields are what saving their parse produces |
| Sources.FirstConflict | main.py:310-333 | no conflict exactly when no entry shares the repository or the id |
| Sources.Duplicates | main.py:203-231 | definition of what `contains_duplicates` reports (a repeated (owner, repo) pair in either kind); `Sources.SourceRegistry.ContainsDuplicates` and `Sources.SharedIdUndetected` state it |
| Sources.ToRecord | main.py:245-253 | definition of one saved record; `Sources.ParseToRecords` states that it parses back |
| Sources.ToRecords | main.py:245-253 | definition of the saved list; `Sources.ParseToRecords` and `Sources.RecordsOfParsed` state the round trips |
| Sources.ToDocument | main.py:255-259 | definition of the saved document; `Sources.SaveThenLoad` states that loading gives the registry back |
| Sources.ParseRecord | main.py:188-195 | definition of reading one record, `KeyError` for a missing field; `Sources.ParseToRecords` and `Sources.RecordsOfParsed` state the round trips |
| Sources.ParseRecords | main.py:188-195 | definition of reading a list; `Sources.ParseErrPersists` states that the first malformed record aborts |
| Sources.ParseDocument | main.py:180-200 | definition of `from_config` on a parsed document; `Sources.SaveThenLoad` and `Sources.SourceRegistry.FromConfig` state it |
| Sources.DefaultPlugins | main.py:275-291 | definition of the three default plugin sources; `Sources.DefaultConfigValid` states they repeat nothing |
| Sources.DefaultTemplates | main.py:292-307 | definition of the default template sources; `Sources.DefaultConfigValid` states they repeat nothing |
| Sources.WithoutId | main.py:348-353 | the filter never lengthens the list |
| Sources.WithoutIdMembers | main.py:348-353 | exactly the entries with another id remain |
| Sources.WithoutIdAppend | main.py:348-353 | the remaining entries keep their relative order |
| Sources.IndexOf | main.py:355-360 | `list.index`: the first position holding the source; `ValueError` exactly when it is absent |
| Sources.DefaultConfigValid | main.py:270-308 | the default catalog repeats neither a repository nor an id |
| Sources.ParseErrPersists | main.py:188-195 | the first malformed record aborts the whole load |
| Sources.SourceRegistry.constructor | main.py:175-177 | the registry holds the two given lists |
| Sources.SourceRegistry.GenerateDefaultConfig | main.py:270-308 | a fresh registry with the default plugins and templates |
| Sources.SourceRegistry.ContainsDuplicates | main.py:203-231 | true exactly when a kind's list repeats an (owner, repo) pair |
| Sources.SourceRegistry.GenerateAssetList | main.py:245-253 | one record per source, in list order |
| Sources.SourceRegistry.GenerateAssetMap | main.py:233-243 | each source's record under its id, later sources replacing earlier ones |
| Sources.SourceRegistry.GenerateMap | main.py:255-259 | the document holds both kinds' record lists |
| Sources.SourceRegistry.WriteConfig | main.py:261-267 | a successful write stores the document; a write that cannot open the file raises and stores nothing |
| Sources.SourceRegistry.FromConfig | main.py:180-200 | succeeds exactly when both lists parse and no repository repeats, giving the parsed lists; otherwise the first error |
| Sources.SourceRegistry.ParseAll | main.py:188-195 | the parse loop stops at the first malformed record |
| Sources.SourceRegistry.AddEntry | main.py:310-333 | a repeated repository or id raises and changes nothing; otherwise exactly one source is appended to that kind, the other kind is unchanged, and the document is written |
| Sources.SourceRegistry.EditEntry | main.py:336-346 | the length is kept; exactly the entries with the given id are rewritten; the other kind is unchanged |
| Sources.SourceRegistry.RemoveEntry | main.py:348-353 | the kind's list loses exactly the entries with the id; the other kind is unchanged |
| Sources.SourceRegistry.Index | main.py:355-360 | the first position holding the source; an error exactly when it is absent |
| Assets.ReleaseUrl | main.py:415-424 | the first attached asset; for templates only, the source archive when nothing is attached; otherwise skipped |
| Assets.SelectVersions | main.py:412-428 | at most one version per release |
| Assets.SelectVersionsAppend | main.py:413-428 | versions keep the order of the releases |
| Assets.SelectedFromRelease | main.py:413-428 | every version comes from a release, with that release's URL, name and body |
| Assets.VersionOf | main.py:425-428 | definition of one version from a release; `Assets.SelectedFromRelease` states the URL, name and body it carries |
| Assets.TemplatesKeepMore | main.py:415-424 | a template keeps at least as many versions as a plugin would |
| Assets.AllAttachedAllKept | main.py:415-417 | when every release has an attached asset, every release is kept |
| Assets.CollectVersions | main.py:413-428 | the release loop collects exactly the selected versions |
| Assets.FetchData | main.py:402-434 | a failed listing raises a fetch error; otherwise the asset has the source's identity and the selected versions, none when there is no data |
| Assets.GetChangelog | main.py:506-507 | the changelog of the indexed version, counted from the end for a negative index; `IndexError` outside Python's index range |
| MetadataCache.AssetToCache | main.py:701-714 | identity fields and version count are preserved |
| MetadataCache.CacheToAsset | main.py:717-733 | the asset takes the requested kind and the stored identity |
| MetadataCache.AssetRoundTrip | main.py:701-733 | storing then reading back under the asset's kind loses nothing |
| MetadataCache.RecordRoundTrip | main.py:701-733 | a stored record read back under any kind is stored back unchanged |
| MetadataCache.Cache.constructor | main.py:736-739 | the cache starts with both tables empty |
| MetadataCache.Cache.Clear | main.py:736-739 | both tables become empty |
| MetadataCache.Cache.Delete | main.py:742-748 | removes exactly that key; `KeyError` and no change when absent; the other table is unchanged |
| MetadataCache.Cache.Add | main.py:751-757 | afterwards `exists` holds and `get` gives the asset with the table's kind; the other table is unchanged |
| MetadataCache.Cache.Get | main.py:769-775 | succeeds exactly when the id exists; the result has the table's kind and stores back as the record |
| MetadataCache.Cache.Exists | main.py:760-766 | definition of `exists` on the kind's table; `MetadataCache.Cache.Add`, `MetadataCache.Cache.Delete` and `MetadataCache.Cache.Get` state it afterwards |
| Entries.NewEntry | main.py:511-528 | only the manifest passed for the entry's kind is kept |
| Entries.DisplayName | main.py:530-545 | definition of `display_name`; `Entries.DisplayNameShowsId` states the text of each case |
| Entries.IsInstalled | main.py:547-569 | definition of `is_installed`; `Entries.AffordanceRules` and `Install.InstallMarksInstalled` state it |
| Entries.CanDownload | main.py:571-583 | definition of `can_download`; `Entries.AffordanceRules` and `Entries.DownloadOrInstall` state it |
| Entries.CanUninstall | main.py:584-585 | definition of `can_uninstall`; `Entries.AffordanceRules` states it is `is_installed` |
| Entries.CanInstall | main.py:587-597 | definition of `can_install`; `Entries.AffordanceRules` and `Entries.DownloadOrInstall` state it |
| Entries.InstalledEntry | main.py:836-887 | definition of an installed entry with its source and asset attached by key; `Entries.ReconcileAt` and `Entries.ReconcileIdsAgree` state it |
| Entries.UninstalledEntry | main.py:865-891 | definition of an entry for a source without a manifest, with its asset attached by key; `Entries.ReconcileAt` and `Entries.UnmatchedSource` state it |
| Entries.DisplayNameShowsId | main.py:530-545 | "unknown asset" for an entry with no view; "<name> (<id>)" for a plugin manifest of a plugin entry; otherwise the id itself; in every case with a view the id occurs in the display name |
| Entries.AffordanceRules | main.py:547-597 | uninstall iff installed; no download or install without a version and a source; download and install are never both offered; a manifest lacking asset or source counts as installed |
| Entries.DownloadOrInstall | main.py:571-597 | for an uninstalled version with agreeing ids, download is offered iff the archive is absent, install iff it is present |
| Entries.ConfigsWithoutManifest | main.py:874-880 | the filter never lengthens the list |
| Entries.ConfigsWithoutManifestMembers | main.py:874-880 | exactly the sources without a manifest remain |
| Entries.ConfigsWithoutManifestAppend | main.py:874-880 | the filter keeps source order (it distributes over concatenation) |
| Entries.ConfigsWithoutManifestDistinct | main.py:874-880 | sources with distinct ids stay distinct after filtering |
| Entries.UnmatchedSource | main.py:874-880 | a remaining source is a configured one whose id is not a manifest key |
| Entries.Reconcile | main.py:815-900 | every entry has the kind and a manifest or a source; a source or an asset is attached exactly when its id is a key; uninstalled entries come last |
| Entries.ReconcileAt | main.py:833-893 | manifest entries come first in manifest order, then source entries in source order |
| Entries.ReconcileIdsAgree | main.py:883-891 | every view held by an entry has the same id |
| Entries.ReconcileDistinct | main.py:815-900 | no two entries share an id |
| Entries.EntryIdIsKey | main.py:815-900 | every entry id is a manifest key or a source key |
| Entries.ReconcileCovers | main.py:815-900 | an id has an entry exactly when it is a manifest key or a source key |
| Entries.GenerateEntries | main.py:815-900 | the building and attaching loops produce exactly the reconciled list |
| Install.Sanitize | main.py:488 | the segments written are exactly the name's '/'-parts other than "", "." and ".." |
| Install.Kept | main.py:488 | filtering keeps exactly the valid parts, and never more parts than it is given |
| Install.KeptAppend | main.py:488 | filtering keeps the parts' order (it distributes over concatenation) |
| Install.KeptAllValid | main.py:488 | a name whose parts are all valid is written under exactly those parts, in order |
| Install.WriteMember | main.py:488-501 | definition of extracting one member (a directory writes nothing; an unnamed file fails; otherwise its sanitised path is written); `Install.ExtractedChanges` and `Install.ExtractedFails` state it |
| Install.Extracted | main.py:488-501 | definition of extracting the members in order, stopping at the first failure; `Install.ExtractedFails`, `Install.ExtractedChanges`, `Install.ExtractedInside`, `Install.ExtractedStops` and `Install.ExtractedPresent` state it |
| Install.ExtractedFails | main.py:488-501 | in this file-system model, extraction fails exactly when some file member's name sanitises to nothing |
| Install.ExtractedChanges | main.py:488-501 | extraction removes nothing; each changed path is a member's sanitised name under the target, holding that member's data |
| Install.ExtractedInside | main.py:488-501 | nothing outside the target changes |
| Install.ExtractedStops | main.py:488-501 | members after a failing one change nothing |
| Install.ExtractedPresent | main.py:488-501 | after a complete extraction every file member is on disk |
| Install.ManifestsFor | main.py:466-476 | the manifests consulted are those passed for the kind |
| Install.InstallTarget | main.py:478-492 | the target is the existing manifest's path exactly when the id is a manifest key; otherwise the id joined to the kind's install directory when that kind's manifests were passed, else to the working directory |
| Install.Installed | main.py:456-504 | definition of `install_version` on the file system; `Install.InstallChangesOnlyTarget`, `Install.InstallSucceeded`, `Install.InstallKeepsDownloads` and `Install.InstallMarksInstalled` state it |
| Install.Cleared | main.py:493-499 | exactly the paths inside the directory are removed |
| Install.MarkerPath | main.py:489-490 | the marker lies inside its directory |
| Install.InstallChangesOnlyTarget | main.py:456-504 | whatever the outcome, nothing outside the target changes |
| Install.InstallSucceeded | main.py:456-504 | success needs an existing version and its downloaded archive, and leaves the tag in the marker with every planned file member on disk |
| Install.InstallKeepsDownloads | main.py:467-503 | for plain ids and tags without '/', installing into a fresh install directory never removes a downloaded archive |
| Install.InstallMarksInstalled | main.py:486-490 | after installing over a manifest, that entry reports the installed tag as installed |
| Install.Disk.constructor | main.py:456-504 | the disk holds the given files |
| Install.Disk.MarkerAt | main.py:550-556 | the marker text when the marker file exists as text, nothing otherwise |
| Install.Disk.ClearDirectory | main.py:493-499 | removes exactly the files inside the directory |
| Install.Disk.ExtractAll | main.py:117-121 | the extraction loop produces the extracted file system and outcome |
| Install.Disk.InstallVersion | main.py:456-504 | the new file system and outcome are those of an install |
| Downloads.BeginExcludes | main.py:1733-1739 | a key in flight is refused and changes nothing; another key starts and only it joins |
| Downloads.Begin | main.py:1733-1739 | definition of the check and add; `Downloads.BeginExcludes` states it |
| Downloads.Finish | main.py:1752 | definition of `set.remove`, `KeyError` when absent; `Downloads.BeginFinishRestores` states it |
| Downloads.ItemDataUnset | main.py:1733-1752 | with every key `None`, a second download is refused while one runs, and finishing empties the set |
| Downloads.BeginFinishRestores | main.py:1739-1752 | finishing the started key restores the set |
| Downloads.SelectionChangeStrandsKey | main.py:1735-1752 | were the key read in `finally` another than the one added, the added key would stay in flight for good |
| Downloads.DownloadGuard.constructor | main.py:1456 | the guard starts empty |
| Downloads.DownloadGuard.TryBegin | main.py:1733-1739 | the check and the add |
| Downloads.DownloadGuard.End | main.py:1752 | the remove, `KeyError` when the key is absent |
| Downloads.DownloadGuard.OnDownloadAsWritten | main.py:1730-1753 | as written: starts iff enabled and the key is not in flight, and removes the key read after the download; when both reads agree, as they do in the program, the set ends as it began |
| Downloads.DownloadGuard.OnDownload | main.py:1730-1753 | with the key read once, the set ends as it began |

## Findings

| source | as written | input that shows it | evidently intended | confidence | as-written member | corrected member |
|---|---|---|---|---|---|---|
| main.py:101-107 | a member is kept only if the second part of its name split on the root name is non-empty | "pkg/pkg/a.txt" under root "pkg/" splits into "", "", "a.txt" and is dropped | the comment at main.py:105 says the join is there to keep a subdirectory with the root's name, so "pkg/a.txt" | high, not executed | Archive.RepeatedRootNameDropped | Archive.RebaseNameIntendedKeeps |

The extraction in `Install` keeps the rename as written (`Archive.RebaseName`), since that is what the program installs.

## Left out

- JSON encoding and decoding of `sources.json` and of the cache file, and `Cache.read_from_disk`/`write_to_disk`. A document is modelled as its parsed records. A `KeyError` for a missing "plugins" or "templates" key is not modelled.
- The GitHub client (`GitHubAPI`, `releases.list`) and the `aiohttp` streaming of `download_version`. The release listing is an input to `Assets.FetchData`; the downloaded bytes are not modelled.
- The Qt widgets and the global orchestration (`reload_cached_data`, `fetch_asset_sources`, `load_cached_asset_sources`), apart from the download guard's set.
- Scanning for installed manifests (`detect_plugins`, `detect_templates`): manifests are inputs.
- `app_directory()` on Windows (`FrayToolsManager` directly under home). Only the other platforms' `.config/FrayToolsManager` is modelled.
- Directory creation (`os.makedirs`): directories exist implicitly, as prefixes of the paths of the files under them.
- Install.ExtractedFails: a file and a directory at one path are not modelled. The file system maps paths to contents, so a file at `p` and another at `p + [x]` can coexist. The program raises `NotADirectoryError` or `IsADirectoryError` for them: for members "a" then "a/b", or when an upgrade over an existing install meets a file where a directory now is, or the other way round. The model lets such an install pass.
- Install.Extracted: same gap as `Install.ExtractedFails`; extraction never fails on a file/directory collision.
- Paths.DownloadLocationFileInjective: proved only for ids that are plain path segments (not empty, ".", ".." and without '/') and tags without '/'. The program checks neither. `Paths.SlashedNamesCollide` shows two assets sharing an archive otherwise.
- Paths.CacheOutsideInstallDirectories: proved only for plain ids and tags without '/'. A ".." segment is kept as pathlib keeps it, and its resolution by the operating system is not modelled. So an id such as "../../../../FrayToolsData/plugins/p", which puts the archive inside an install directory, is outside what the model captures.
- Install.InstallKeepsDownloads: proved only for a plain asset id and archives of plain ids and tags without '/'. An id such as "../../.config/FrayToolsManager/cache" would make a fresh install clear the cache, through the operating system's resolution of "..", which is not modelled.
- Paths.JoinPath: pathlib's special case of a path starting with exactly two slashes, and symbolic links, are not modelled.
- Windows path separators, drive letters and `normpath` in `zipfile`'s extraction. ZIP archives are given by their member lists, not by their bytes; a corrupt archive is modelled only as a file that is not an archive.
- Sources.SourceRegistry.Index: compares sources by value, while `list.index` on objects without `__eq__` compares identity; for equal sources the model can answer an earlier position.
- `AssetEntry` is a value: the aliasing between the entry lists and the global maps is not modelled.
- Install.Disk.ClearDirectory: removes the directory's contents in one step rather than child by child.
- Logging (`log`) and error popups.
- Sources.SourceRegistry.WriteConfig: a write that fails after `open(..., "w")` has truncated `sources.json` leaves an empty or partial file; the model knows only a write that fails before anything changes.
- Downloads.DownloadGuard.OnDownloadAsWritten: the handler runs as one step, with the `await` of the download collapsed. Other handlers' steps during the download are not modelled, so "the set ends as it began" is about one handler running alone. `Downloads.Begin` and `Downloads.Finish` model the two steps on their own.
- Downloads.DownloadGuard.OnDownload: the same single-step view as `Downloads.DownloadGuard.OnDownloadAsWritten`.
