/** Installing a downloaded version (`FrayToolsAsset.install_version`): the
    choice of the install directory, the clearing of a fresh one, the
    root-stripped extraction of the archive (as `zipfile.extractall` writes
    it) and the version marker written last. The file system is a map from
    paths to contents; directories are implied by the paths under them. */
module Install {
  import opened Common
  import opened Strings
  import opened Paths
  import opened Archive
  import opened Dicts
  import opened Assets
  import opened Entries

  /** What a file holds: text, or a ZIP archive given by its members. */
  datatype Content = Text(text: string) | Zip(members: seq<Member>)

  datatype InstallError =
    | VersionIndexOutOfRange        // `self.versions[index]` raises `IndexError`
    | ArchiveMissing                // opening the archive raises `FileNotFoundError`
    | NotAnArchive                  // `zipfile.ZipFile` raises `BadZipFile`
    | BadArchive(error: ArchiveError)
    | MemberIsDirectory(name: string)  // a file member whose name sanitises to nothing

  /** The segments under which `zipfile` writes a member: its name split on
      '/', without empty, "." and ".." segments, so nothing is written
      outside the extraction directory. */
  function Sanitize(name: string): (segs: Path)
    ensures forall s :: s in segs <==> s in Split(name, "/") && ValidPart(s)
  {
    Kept(Split(name, "/"))
  }

  /** A part `zipfile` keeps: not empty, "." or "..". */
  predicate ValidPart(s: string)
  {
    s != "" && s != "." && s != ".."
  }

  /** The valid parts, in their order. */
  function Kept(parts: seq<string>): (segs: seq<string>)
    ensures |segs| <= |parts|
    ensures forall s :: s in segs <==> s in parts && ValidPart(s)
  {
    if parts == [] then []
    else if !ValidPart(parts[0]) then Kept(parts[1..])
    else [parts[0]] + Kept(parts[1..])
  }

  /** Filtering keeps the order: it distributes over concatenation. */
  lemma {:induction false} KeptAppend(a: seq<string>, b: seq<string>)
    ensures Kept(a + b) == Kept(a) + Kept(b)
    decreases |a|
  {
    if a == [] {
      assert a + b == b;
    } else {
      assert (a + b)[0] == a[0] && (a + b)[1..] == a[1..] + b;
      KeptAppend(a[1..], b);
    }
  }

  /** A name whose '/'-parts are all valid is written under exactly those
      parts, in order. */
  lemma {:induction false} KeptAllValid(parts: seq<string>)
    requires forall s :: s in parts ==> ValidPart(s)
    ensures Kept(parts) == parts
    decreases |parts|
  {
    if parts != [] {
      assert parts[0] in parts;
      assert forall s :: s in parts[1..] ==> s in parts;
      KeptAllValid(parts[1..]);
    }
  }

  /** The file system after `zipfile` writes one member into `target`. */
  function WriteMember(files: map<Path, Content>, target: Path, m: Member): (map<Path, Content>, Outcome<InstallError>)
  {
    if m.IsDir() then (files, Pass)
    else if Sanitize(m.name) == [] then (files, Fail(MemberIsDirectory(m.name)))
    else (files[target + Sanitize(m.name) := Text(m.data)], Pass)
  }

  /** `extractall(target, members)`: members written in order, later ones
      overwriting earlier ones at the same path, stopping at the first
      member that cannot be written. */
  function Extracted(files: map<Path, Content>, target: Path, members: seq<Member>): (map<Path, Content>, Outcome<InstallError>)
  {
    if members == [] then (files, Pass)
    else
      var (f, o) := Extracted(files, target, members[..|members| - 1]);
      if o.Fail? then (f, o) else WriteMember(f, target, members[|members| - 1])
  }

  /** A file member that cannot be written: its name has no segment left
      once sanitised. */
  predicate Unwritable(m: Member)
  {
    !m.IsDir() && Sanitize(m.name) == []
  }

  /** Extraction fails exactly when some file member cannot be written. */
  lemma {:induction false} ExtractedFails(files: map<Path, Content>, target: Path, members: seq<Member>)
    ensures Extracted(files, target, members).1.Fail? <==> exists m :: m in members && Unwritable(m)
    decreases |members|
  {
    if members != [] {
      var front, last := members[..|members| - 1], members[|members| - 1];
      ExtractedFails(files, target, front);
      assert members == front + [last];
      forall m ensures m in members <==> m in front || m == last {
      }
      if Unwritable(last) {
        assert last in members;
      } else if exists m :: m in front && Unwritable(m) {
        var m :| m in front && Unwritable(m);
        assert m in members;
      }
    }
  }

  /** Extraction removes nothing, and every path whose content it changes
      is the sanitised name of a file member under `target`, holding that
      member's data. */
  lemma {:induction false} ExtractedChanges(files: map<Path, Content>, target: Path, members: seq<Member>)
    ensures var f := Extracted(files, target, members).0;
      && files.Keys <= f.Keys
      && forall p :: p in f && (p !in files || f[p] != files[p]) ==>
           exists m :: m in members && !m.IsDir() && Sanitize(m.name) != [] &&
                       p == target + Sanitize(m.name) && f[p] == Text(m.data)
    decreases |members|
  {
    if members != [] {
      var front, last := members[..|members| - 1], members[|members| - 1];
      ExtractedChanges(files, target, front);
      assert members == front + [last];
      var (f0, o0) := Extracted(files, target, front);
      var f := Extracted(files, target, members).0;
      forall p | p in f && (p !in files || f[p] != files[p])
        ensures exists m :: m in members && !m.IsDir() && Sanitize(m.name) != [] &&
                            p == target + Sanitize(m.name) && f[p] == Text(m.data)
      {
        if o0.Pass? && !last.IsDir() && Sanitize(last.name) != [] && p == target + Sanitize(last.name) {
          assert f[p] == Text(last.data);
        } else {
          assert f[p] == f0[p];
          var m :| m in front && !m.IsDir() && Sanitize(m.name) != [] &&
                   p == target + Sanitize(m.name) && f0[p] == Text(m.data);
          assert m in members;
        }
      }
    }
  }

  /** Every path extraction changes lies inside `target`. */
  lemma ExtractedInside(files: map<Path, Content>, target: Path, members: seq<Member>, p: Path)
    requires !Under(p, target)
    ensures var f := Extracted(files, target, members).0;
      (p in f <==> p in files) && (p in files ==> f[p] == files[p])
  {
    ExtractedChanges(files, target, members);
  }

  /** Once a member cannot be written, extraction stops: the members after
      it change nothing. */
  lemma {:induction false} ExtractedStops(files: map<Path, Content>, target: Path, members: seq<Member>, i: nat)
    requires i <= |members|
    requires Extracted(files, target, members[..i]).1.Fail?
    ensures Extracted(files, target, members) == Extracted(files, target, members[..i])
    decreases |members| - i
  {
    if i < |members| {
      var front := members[..|members| - 1];
      assert front[..i] == members[..i];
      ExtractedStops(files, target, front, i);
    } else {
      assert members[..i] == members;
    }
  }

  /** After a complete extraction, every file member is on disk. */
  lemma {:induction false} ExtractedPresent(files: map<Path, Content>, target: Path, members: seq<Member>)
    requires Extracted(files, target, members).1.Pass?
    ensures forall m :: m in members && !m.IsDir() ==> target + Sanitize(m.name) in Extracted(files, target, members).0
    decreases |members|
  {
    if members != [] {
      var front, last := members[..|members| - 1], members[|members| - 1];
      ExtractedChanges(files, target, front);
      ExtractedPresent(files, target, front);
      assert members == front + [last];
      forall m | m in members && !m.IsDir()
        ensures target + Sanitize(m.name) in Extracted(files, target, members).0
      {
        if m != last {
          assert m in front;
        }
      }
    }
  }

  /** The directory `install_version` extracts into: the path of the
      installed manifest with the asset's id, kept as it is; otherwise
      `<root>/<id>`, cleared first, where the root is the kind's install
      directory when that kind's manifests were passed, and the working
      directory when they were not. */
  datatype Target = Existing(path: Path) | Fresh(path: Path)

  /** The manifests `install_version` consults: those passed for its kind,
      or none. */
  function ManifestsFor(kind: Kind, pluginManifests: Option<Dict<Manifest>>,
                        templateManifests: Option<Dict<Manifest>>): (ms: map<string, Manifest>)
    ensures kind == Plugin && pluginManifests.Some? ==> ms == pluginManifests.value.entries
    ensures kind == Template && templateManifests.Some? ==> ms == templateManifests.value.entries
  {
    if kind == Plugin && pluginManifests.Some? then pluginManifests.value.entries
    else if kind == Template && templateManifests.Some? then templateManifests.value.entries
    else map[]
  }

  function InstallTarget(id: string, kind: Kind, pluginManifests: Option<Dict<Manifest>>,
                         templateManifests: Option<Dict<Manifest>>, workingDirectory: Path): (t: Target)
    ensures t.Existing? <==> id in ManifestsFor(kind, pluginManifests, templateManifests)
    ensures t.Existing? ==> t.path == ManifestsFor(kind, pluginManifests, templateManifests)[id].path
    ensures var passed := (kind == Plugin && pluginManifests.Some?) || (kind == Template && templateManifests.Some?);
      t.Fresh? && PlainSegment(id) ==>
      t.path == (if passed then InstallDirectory(kind) else workingDirectory) + [id]
    ensures var passed := (kind == Plugin && pluginManifests.Some?) || (kind == Template && templateManifests.Some?);
      t.Fresh? ==> t.path == JoinPath(if passed then InstallDirectory(kind) else workingDirectory, id)
  {
    var manifests := ManifestsFor(kind, pluginManifests, templateManifests);
    var passed := (kind == Plugin && pluginManifests.Some?) || (kind == Template && templateManifests.Some?);
    var outputDir := if passed then InstallDirectory(kind) else workingDirectory;
    JoinOneSegment(outputDir, id);
    if id in manifests then Existing(manifests[id].path) else Fresh(JoinPath(outputDir, id))
  }

  /** The file system with everything inside `dir` removed. */
  function Cleared(files: map<Path, Content>, dir: Path): (f: map<Path, Content>)
    ensures forall p :: p in f <==> p in files && !Under(p, dir)
    ensures forall p :: p in f ==> f[p] == files[p]
  {
    map p | p in files && !Under(p, dir) :: files[p]
  }

  /** The marker file of an install directory. */
  function MarkerPath(dir: Path): (p: Path)
    ensures Under(p, dir)
  {
    dir + [MarkerName]
  }

  /** The outcome and the file system `install_version` leaves behind. */
  function Installed(files: map<Path, Content>, asset: RemoteAsset, index: int, kind: Kind,
                     pluginManifests: Option<Dict<Manifest>>, templateManifests: Option<Dict<Manifest>>,
                     workingDirectory: Path): (map<Path, Content>, Outcome<InstallError>)
  {
    match PyIndex(asset.versions, index)
    case None => (files, Fail(VersionIndexOutOfRange))
    case Some(version) =>
      var target := InstallTarget(asset.id, kind, pluginManifests, templateManifests, workingDirectory);
      var files := if target.Fresh? then Cleared(files, target.path) else files;
      var archive := DownloadLocationFile(asset.id, version.tag, kind);
      if archive !in files then (files, Fail(ArchiveMissing))
      else if files[archive].Text? then (files, Fail(NotAnArchive))
      else match ExtractionPlan(files[archive].members)
        case Err(e) => (files, Fail(BadArchive(e)))
        case Ok(members) =>
          var (f, o) := Extracted(files, target.path, members);
          if o.Fail? then (f, o) else (f[MarkerPath(target.path) := Text(version.tag)], Pass)
  }

  /** Whatever the outcome, nothing outside the install directory changes. */
  lemma InstallChangesOnlyTarget(files: map<Path, Content>, asset: RemoteAsset, index: int, kind: Kind,
                                 pluginManifests: Option<Dict<Manifest>>, templateManifests: Option<Dict<Manifest>>,
                                 workingDirectory: Path, p: Path)
    requires !Under(p, InstallTarget(asset.id, kind, pluginManifests, templateManifests, workingDirectory).path)
    ensures var f := Installed(files, asset, index, kind, pluginManifests, templateManifests, workingDirectory).0;
      (p in f <==> p in files) && (p in files ==> f[p] == files[p])
  {
    var target := InstallTarget(asset.id, kind, pluginManifests, templateManifests, workingDirectory);
    var v := PyIndex(asset.versions, index);
    if v.Some? {
      var files' := if target.Fresh? then Cleared(files, target.path) else files;
      var archive := DownloadLocationFile(asset.id, v.value.tag, kind);
      if archive in files' && files'[archive].Zip? && ExtractionPlan(files'[archive].members).Ok? {
        ExtractedInside(files', target.path, ExtractionPlan(files'[archive].members).value, p);
      }
    }
  }

  /** A successful install leaves the selected version's tag in the marker
      of the install directory, and every file member of the archive (as
      planned) on disk under it; it succeeds only for an existing version
      whose archive was downloaded. */
  lemma InstallSucceeded(files: map<Path, Content>, asset: RemoteAsset, index: int, kind: Kind,
                         pluginManifests: Option<Dict<Manifest>>, templateManifests: Option<Dict<Manifest>>,
                         workingDirectory: Path)
    requires Installed(files, asset, index, kind, pluginManifests, templateManifests, workingDirectory).1.Pass?
    ensures PyIndex(asset.versions, index).Some?
    ensures var tag := PyIndex(asset.versions, index).value.tag;
      var target := InstallTarget(asset.id, kind, pluginManifests, templateManifests, workingDirectory).path;
      var f := Installed(files, asset, index, kind, pluginManifests, templateManifests, workingDirectory).0;
      && DownloadLocationFile(asset.id, tag, kind) in files
      && f[MarkerPath(target)] == Text(tag)
      && ExtractionPlan(files[DownloadLocationFile(asset.id, tag, kind)].members).Ok?
      && forall m :: m in ExtractionPlan(files[DownloadLocationFile(asset.id, tag, kind)].members).value &&
                     !m.IsDir() && target + Sanitize(m.name) != MarkerPath(target) ==>
                       target + Sanitize(m.name) in f
  {
    var tag := PyIndex(asset.versions, index).value.tag;
    var t := InstallTarget(asset.id, kind, pluginManifests, templateManifests, workingDirectory);
    var files' := if t.Fresh? then Cleared(files, t.path) else files;
    var archive := DownloadLocationFile(asset.id, tag, kind);
    assert archive in files' && files'[archive] == files[archive];
    ExtractedPresent(files', t.path, ExtractionPlan(files'[archive].members).value);
  }

  /** Installing into a fresh directory under an install directory never
      touches the download cache: every downloaded archive survives. Stated
      for ids that are plain path segments and tags without '/'; a ".."
      segment is not resolved by this path model. */
  lemma InstallKeepsDownloads(files: map<Path, Content>, asset: RemoteAsset, index: int, kind: Kind,
                              pluginManifests: Option<Dict<Manifest>>, templateManifests: Option<Dict<Manifest>>,
                              workingDirectory: Path, id: string, tag: string, k: Kind)
    requires (kind == Plugin && pluginManifests.Some?) || (kind == Template && templateManifests.Some?)
    requires InstallTarget(asset.id, kind, pluginManifests, templateManifests, workingDirectory).Fresh?
    requires PlainSegment(asset.id) && PlainSegment(id) && '/' !in tag
    ensures var archive := DownloadLocationFile(id, tag, k);
      var f := Installed(files, asset, index, kind, pluginManifests, templateManifests, workingDirectory).0;
      (archive in f <==> archive in files) && (archive in files ==> f[archive] == files[archive])
  {
    var target := InstallTarget(asset.id, kind, pluginManifests, templateManifests, workingDirectory);
    assert target.path == InstallDirectory(kind) + [asset.id];
    CacheOutsideInstallDirectories(id, tag, k, kind, [asset.id]);
    InstallChangesOnlyTarget(files, asset, index, kind, pluginManifests, templateManifests, workingDirectory,
                             DownloadLocationFile(id, tag, k));
  }

  /** The file system `install_version` works on. */
  class Disk {
    var files: map<Path, Content>

    constructor (files: map<Path, Content>)
      ensures this.files == files
    {
      this.files := files;
    }

    /** What `is_installed` reads from the marker of `dir`: its text, or
        nothing when it is missing or not a text file. */
    function MarkerAt(dir: Path): (marker: Option<string>)
      reads this
      ensures marker.Some? <==> MarkerPath(dir) in files && files[MarkerPath(dir)].Text?
      ensures marker.Some? ==> files[MarkerPath(dir)] == Text(marker.value)
    {
      var p := MarkerPath(dir);
      if p in files && files[p].Text? then Some(files[p].text) else None
    }

    /** `for path in outpath.iterdir(): unlink / rmtree`. */
    method ClearDirectory(dir: Path)
      modifies this
      ensures files == Cleared(old(files), dir)
    {
      files := map p | p in files && !Under(p, dir) :: files[p];
    }

    /** `extractall(target, members)`, one member at a time. */
    method ExtractAll(target: Path, members: seq<Member>) returns (r: Outcome<InstallError>)
      modifies this
      ensures (files, r) == Extracted(old(files), target, members)
    {
      ghost var start := files;
      var i := 0;
      while i < |members|
        invariant 0 <= i <= |members|
        invariant (files, Pass) == Extracted(start, target, members[..i])
      {
        assert members[..i + 1][..i] == members[..i];
        var m := members[i];
        if !m.IsDir() {
          var segs := Sanitize(m.name);
          if segs == [] {
            assert members[..i + 1][..i] == members[..i];
            ExtractedStops(start, target, members, i + 1);
            return Fail(MemberIsDirectory(m.name));
          }
          files := files[target + segs := Text(m.data)];
        }
        i := i + 1;
      }
      assert members[..i] == members;
      return Pass;
    }

    /** `install_version(index, kind, plugin_manifests, template_manifests)`. */
    method InstallVersion(asset: RemoteAsset, index: int, kind: Kind,
                          pluginManifests: Option<Dict<Manifest>>, templateManifests: Option<Dict<Manifest>>,
                          workingDirectory: Path) returns (r: Outcome<InstallError>)
      modifies this
      ensures (files, r) == Installed(old(files), asset, index, kind, pluginManifests, templateManifests, workingDirectory)
    {
      var version := PyIndex(asset.versions, index);
      if version.None? {
        return Fail(VersionIndexOutOfRange);
      }
      var tag := version.value.tag;
      var target := InstallTarget(asset.id, kind, pluginManifests, templateManifests, workingDirectory);
      if target.Fresh? {
        ClearDirectory(target.path);
      }
      var archive := DownloadLocationFile(asset.id, tag, kind);
      if archive !in files {
        return Fail(ArchiveMissing);
      }
      if files[archive].Text? {
        return Fail(NotAnArchive);
      }
      var plan := PlanExtraction(files[archive].members);
      if plan.Err? {
        return Fail(BadArchive(plan.error));
      }
      var members := if plan.value.ExtractVerbatim? then files[archive].members else plan.value.members;
      r := ExtractAll(target.path, members);
      if r.Pass? {
        files := files[MarkerPath(target.path) := Text(tag)];
      }
    }
  }

  /** An installed entry whose manifest is the one `install_version` found
      for the asset's id reports the installed version as installed. */
  lemma InstallMarksInstalled(files: map<Path, Content>, asset: RemoteAsset, index: int, kind: Kind,
                              pluginManifests: Option<Dict<Manifest>>, templateManifests: Option<Dict<Manifest>>,
                              workingDirectory: Path, e: AssetEntry)
    requires Installed(files, asset, index, kind, pluginManifests, templateManifests, workingDirectory).1.Pass?
    requires e.manifest.Some?
    requires asset.id in ManifestsFor(kind, pluginManifests, templateManifests)
    requires e.manifest.value == ManifestsFor(kind, pluginManifests, templateManifests)[asset.id]
    ensures PyIndex(asset.versions, index).Some?
    ensures var f := Installed(files, asset, index, kind, pluginManifests, templateManifests, workingDirectory).0;
      var marker := MarkerPath(e.manifest.value.path);
      marker in f && f[marker].Text? &&
      IsInstalled(e, Some(PyIndex(asset.versions, index).value.tag), Some(f[marker].text))
  {
    InstallSucceeded(files, asset, index, kind, pluginManifests, templateManifests, workingDirectory);
  }
}
