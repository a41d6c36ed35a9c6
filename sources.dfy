/** The source registry (`SourcesConfig`): per kind, an ordered list of
    configured sources, validated for duplicates, edited by the user and
    persisted as a document of plain records. */
module Sources {
  import opened Common
  import opened Dicts

  /** `AssetConfig`: where the releases of the asset `id` are published. */
  datatype AssetConfig = AssetConfig(owner: string, repo: string, id: string)

  datatype SourceError =
    | InvalidSource             // `InvalidSourceError`: a parsed document holds duplicates
    | DuplicateRepository       // `DuplicateSourceEntryError`: same (owner, repo)
    | DuplicateId               // `DuplicateSourceEntryError`: conflicting id
    | MissingField(key: string) // `KeyError`: a record lacks one of its three fields
    | WriteFailed               // `IOError` while writing the document
    | NotInList                 // `ValueError` from `list.index`

  /** One entry of the document: a `dict[str, str]`. */
  type Record = map<string, string>

  /** The document `generate_map` builds and `from_config` reads. */
  datatype ConfigDocument = ConfigDocument(plugins: seq<Record>, templates: seq<Record>)

  /** Two entries of `xs` share an (owner, repo) pair. */
  ghost predicate RepoRepeated(xs: seq<AssetConfig>)
  {
    exists i, j :: 0 <= i < j < |xs| && xs[i].owner == xs[j].owner && xs[i].repo == xs[j].repo
  }

  /** Two entries of `xs` share an id. */
  ghost predicate IdRepeated(xs: seq<AssetConfig>)
  {
    exists i, j :: 0 <= i < j < |xs| && xs[i].id == xs[j].id
  }

  /** What `contains_duplicates` detects: a repeated (owner, repo) pair
      within a kind. The id checks it also performs look into sets that are
      never filled, so they never fire. */
  ghost predicate Duplicates(plugins: seq<AssetConfig>, templates: seq<AssetConfig>)
  {
    RepoRepeated(plugins) || RepoRepeated(templates)
  }

  /** Two sources of one kind that share an id but not their repository
      pass the validation as written. */
  lemma SharedIdUndetected(owner1: string, repo1: string, owner2: string, repo2: string, id: string)
    requires (owner1, repo1) != (owner2, repo2)
    ensures var xs := [AssetConfig(owner1, repo1, id), AssetConfig(owner2, repo2, id)];
      IdRepeated(xs) && !Duplicates(xs, [])
  {
    var xs := [AssetConfig(owner1, repo1, id), AssetConfig(owner2, repo2, id)];
    assert xs[0].id == xs[1].id;
  }

  /** One kind's loop of `contains_duplicates`: grow the set of seen
      (owner, repo) pairs, stop at the first repeat. */
  method ScanForRepeats(assets: seq<AssetConfig>) returns (found: bool)
    ensures found == RepoRepeated(assets)
  {
    var repos: set<(string, string)> := {};
    var ids: set<string> := {};
    var i := 0;
    while i < |assets|
      invariant 0 <= i <= |assets|
      invariant repos == set j | 0 <= j < i :: (assets[j].owner, assets[j].repo)
      invariant !RepoRepeated(assets[..i])
    {
      var asset := assets[i];
      if (asset.owner, asset.repo) !in repos {
        repos := repos + {(asset.owner, asset.repo)};
      } else {
        return true;
      }
      // The id is looked up in `ids`, but the pair is what gets added.
      if asset.id !in ids {
        repos := repos + {(asset.owner, asset.repo)};
      } else {
        return true;
      }
      i := i + 1;
    }
    assert assets[..i] == assets;
    return false;
  }

  /** The record `generate_asset_list` makes of one source. */
  function ToRecord(a: AssetConfig): Record
  {
    map["id" := a.id, "owner" := a.owner, "repo" := a.repo]
  }

  function ToRecords(xs: seq<AssetConfig>): seq<Record>
  {
    seq(|xs|, i requires 0 <= i < |xs| => ToRecord(xs[i]))
  }

  /** `generate_map` over the two lists. */
  function ToDocument(plugins: seq<AssetConfig>, templates: seq<AssetConfig>): ConfigDocument
  {
    ConfigDocument(ToRecords(plugins), ToRecords(templates))
  }

  /** `AssetConfig(entry["owner"], entry["repo"], entry["id"])`. */
  function ParseRecord(r: Record): Result<AssetConfig, SourceError>
  {
    if "owner" !in r then Err(MissingField("owner"))
    else if "repo" !in r then Err(MissingField("repo"))
    else if "id" !in r then Err(MissingField("id"))
    else Ok(AssetConfig(r["owner"], r["repo"], r["id"]))
  }

  /** Parsing a list of records, stopping at the first malformed one. */
  function ParseRecords(rs: seq<Record>): Result<seq<AssetConfig>, SourceError>
  {
    if rs == [] then Ok([])
    else
      match ParseRecords(rs[..|rs| - 1])
      case Err(e) => Err(e)
      case Ok(xs) =>
        match ParseRecord(rs[|rs| - 1])
        case Err(e) => Err(e)
        case Ok(a) => Ok(xs + [a])
  }

  /** What `from_config` makes of a document: both lists parsed, plugins
      first, then the duplicate validation. */
  ghost function ParseDocument(doc: ConfigDocument): Result<(seq<AssetConfig>, seq<AssetConfig>), SourceError>
  {
    match ParseRecords(doc.plugins)
    case Err(e) => Err(e)
    case Ok(ps) =>
      match ParseRecords(doc.templates)
      case Err(e) => Err(e)
      case Ok(ts) => if Duplicates(ps, ts) then Err(InvalidSource) else Ok((ps, ts))
  }

  /** Records parse back to the sources they were made of. */
  lemma {:induction false} ParseToRecords(xs: seq<AssetConfig>)
    ensures ParseRecords(ToRecords(xs)) == Ok(xs)
    decreases |xs|
  {
    if xs != [] {
      var front := xs[..|xs| - 1];
      assert ToRecords(xs)[..|xs| - 1] == ToRecords(front);
      ParseToRecords(front);
      assert xs == front + [xs[|xs| - 1]];
    }
  }

  /** Saving then loading gives the same registry back, and a registry
      with a repeated repository is refused when loaded. */
  lemma SaveThenLoad(plugins: seq<AssetConfig>, templates: seq<AssetConfig>)
    ensures ParseDocument(ToDocument(plugins, templates)) ==
      if Duplicates(plugins, templates) then Err(InvalidSource) else Ok((plugins, templates))
  {
    ParseToRecords(plugins);
    ParseToRecords(templates);
  }

  /** A list of records that parses, and whose records carry nothing but
      the three fields, is exactly what saving the parsed list produces. */
  lemma {:induction false} RecordsOfParsed(rs: seq<Record>)
    requires ParseRecords(rs).Ok?
    requires forall r :: r in rs ==> r.Keys == {"id", "owner", "repo"}
    ensures ToRecords(ParseRecords(rs).value) == rs
    decreases |rs|
  {
    if rs != [] {
      var front := rs[..|rs| - 1];
      RecordsOfParsed(front);
      var last := rs[|rs| - 1];
      assert last in rs;
      var xs := ParseRecords(rs).value;
      assert ToRecord(xs[|xs| - 1]) == last;
      assert xs[..|xs| - 1] == ParseRecords(front).value;
      assert ToRecords(xs)[..|xs| - 1] == ToRecords(xs[..|xs| - 1]);
      assert rs == front + [last];
    }
  }

  /** The reason `add_entry` refuses a new source: the first entry of the
      kind's list with the same repository, or else with the same id. */
  function FirstConflict(xs: seq<AssetConfig>, owner: string, repo: string, id: string): (r: Option<SourceError>)
    ensures r.None? <==> forall x :: x in xs ==> (x.owner, x.repo) != (owner, repo) && x.id != id
    ensures r.Some? ==> r.value in {DuplicateRepository, DuplicateId}
  {
    if xs == [] then None
    else if (owner, repo) == (xs[0].owner, xs[0].repo) then Some(DuplicateRepository)
    else if id == xs[0].id then Some(DuplicateId)
    else
      assert forall x :: x in xs ==> x == xs[0] || x in xs[1..];
      FirstConflict(xs[1..], owner, repo, id)
  }

  /** `remove_entry`'s filter: the entries whose id differs. */
  function WithoutId(xs: seq<AssetConfig>, id: string): (r: seq<AssetConfig>)
    ensures |r| <= |xs|
  {
    if xs == [] then []
    else
      var rest := WithoutId(xs[..|xs| - 1], id);
      if xs[|xs| - 1].id != id then rest + [xs[|xs| - 1]] else rest
  }

  /** Exactly the entries with another id remain. */
  lemma {:induction false} WithoutIdMembers(xs: seq<AssetConfig>, id: string, x: AssetConfig)
    ensures x in WithoutId(xs, id) <==> x in xs && x.id != id
    decreases |xs|
  {
    if xs != [] {
      WithoutIdMembers(xs[..|xs| - 1], id, x);
      assert xs == xs[..|xs| - 1] + [xs[|xs| - 1]];
    }
  }

  /** The remaining entries keep their relative order: the filter
      distributes over concatenation. */
  lemma {:induction false} WithoutIdAppend(a: seq<AssetConfig>, b: seq<AssetConfig>, id: string)
    ensures WithoutId(a + b, id) == WithoutId(a, id) + WithoutId(b, id)
    decreases |b|
  {
    if b == [] {
      assert a + b == a;
    } else {
      var b' := b[..|b| - 1];
      assert (a + b)[..|a + b| - 1] == a + b';
      WithoutIdAppend(a, b', id);
    }
  }

  /** `list.index(x)`: the first position holding `x`. */
  function IndexOf(xs: seq<AssetConfig>, x: AssetConfig): (r: Result<nat, SourceError>)
    ensures r.Ok? ==> r.value < |xs| && xs[r.value] == x && forall j :: 0 <= j < r.value ==> xs[j] != x
    ensures r.Err? <==> x !in xs
    ensures r.Err? ==> r.error == NotInList
  {
    if xs == [] then Err(NotInList)
    else if xs[0] == x then Ok(0)
    else
      assert forall y :: y in xs ==> y == xs[0] || y in xs[1..];
      match IndexOf(xs[1..], x)
      case Err(e) => Err(e)
      case Ok(i) => Ok(i + 1)
  }

  /** The sources `generate_default_config` starts a fresh installation with. */
  function DefaultPlugins(): seq<AssetConfig>
  {
    [ AssetConfig("Fraymakers", "metadata-plugin", "com.fraymakers.FraymakersMetadata"),
      AssetConfig("Fraymakers", "api-types-plugin", "com.fraymakers.FraymakersTypes"),
      AssetConfig("Fraymakers", "content-exporter-plugin", "com.fraymakers.ContentExporter") ]
  }

  function DefaultTemplates(): seq<AssetConfig>
  {
    [ AssetConfig("Fraymakers", "character-template", "charactertemplate"),
      AssetConfig("Fraymakers", "assist-template", "assisttemplate"),
      AssetConfig("Fraymakers", "stage-template", "stagetemplate"),
      AssetConfig("Fraymakers", "music-template", "musictemplate") ]
  }

  /** The default catalog repeats neither a repository nor an id. */
  lemma DefaultConfigValid()
    ensures !Duplicates(DefaultPlugins(), DefaultTemplates())
    ensures !IdRepeated(DefaultPlugins()) && !IdRepeated(DefaultTemplates())
  {
  }

  /** `SourcesConfig`. */
  class SourceRegistry {
    var plugins: seq<AssetConfig>
    var templates: seq<AssetConfig>
    /** The document this registry last wrote to `sources.json`, if any. */
    var written: Option<ConfigDocument>

    constructor (plugins: seq<AssetConfig>, templates: seq<AssetConfig>)
      ensures this.plugins == plugins && this.templates == templates && written == None
    {
      this.plugins := plugins;
      this.templates := templates;
      written := None;
    }

    /** `generate_default_config`. */
    static method GenerateDefaultConfig() returns (r: SourceRegistry)
      ensures fresh(r)
      ensures r.plugins == DefaultPlugins() && r.templates == DefaultTemplates() && r.written == None
    {
      r := new SourceRegistry(DefaultPlugins(), DefaultTemplates());
    }

    /** The list of one kind. */
    function Sources(kind: Kind): seq<AssetConfig>
      reads this
    {
      match kind
      case Plugin => plugins
      case Template => templates
    }

    /** `contains_duplicates`. */
    method ContainsDuplicates() returns (dup: bool)
      ensures dup == Duplicates(plugins, templates)
    {
      dup := ScanForRepeats(plugins);
      if dup {
        return;
      }
      dup := ScanForRepeats(templates);
    }

    /** `generate_asset_list`: one record per source, in order. */
    static method GenerateAssetList(assets: seq<AssetConfig>) returns (list: seq<Record>)
      ensures list == ToRecords(assets)
    {
      list := [];
      var i := 0;
      while i < |assets|
        invariant 0 <= i <= |assets|
        invariant list == ToRecords(assets[..i])
      {
        list := list + [ToRecord(assets[i])];
        i := i + 1;
      }
      assert assets[..i] == assets;
    }

    /** `generate_asset_map`: the record of each source under its id, in
        first-insertion order, a later source replacing an earlier one
        with the same id. */
    static method GenerateAssetMap(assets: seq<AssetConfig>) returns (d: Dict<Record>)
      ensures d.Valid()
      ensures d == Mapped(ById(assets, (a: AssetConfig) => a.id), ToRecord)
    {
      d := Dict([], map[]);
      var i := 0;
      while i < |assets|
        invariant 0 <= i <= |assets|
        invariant d.Valid()
        invariant d == Mapped(ById(assets[..i], (a: AssetConfig) => a.id), ToRecord)
      {
        MappedByIdPrefix(assets, i, (a: AssetConfig) => a.id, ToRecord);
        d := d.Put(assets[i].id, ToRecord(assets[i]));
        i := i + 1;
      }
      assert assets[..i] == assets;
    }

    /** `generate_map`: the document that is written. */
    method GenerateMap() returns (doc: ConfigDocument)
      ensures doc == ToDocument(plugins, templates)
    {
      var ps := GenerateAssetList(plugins);
      var ts := GenerateAssetList(templates);
      doc := ConfigDocument(ps, ts);
    }

    /** `write_config`; whether the file system accepts the write is an input. */
    method WriteConfig(writeOk: bool) returns (r: Outcome<SourceError>)
      modifies this`written
      ensures writeOk ==> r == Pass && written == Some(ToDocument(plugins, templates))
      ensures !writeOk ==> r == Fail(WriteFailed) && written == old(written)
    {
      if !writeOk {
        return Fail(WriteFailed);
      }
      var doc := GenerateMap();
      written := Some(doc);
      r := Pass;
    }

    /** `from_config`, on the parsed document: both lists, then validation. */
    static method FromConfig(doc: ConfigDocument) returns (r: Result<SourceRegistry, SourceError>)
      ensures r.Ok? <==> ParseDocument(doc).Ok?
      ensures r.Ok? ==> fresh(r.value) && r.value.written == None
      ensures r.Ok? ==> (r.value.plugins, r.value.templates) == ParseDocument(doc).value
      ensures r.Err? ==> r.error == ParseDocument(doc).error
    {
      var plugins := ParseAll(doc.plugins);
      if plugins.Err? {
        return Err(plugins.error);
      }
      var templates := ParseAll(doc.templates);
      if templates.Err? {
        return Err(templates.error);
      }
      var parsed := new SourceRegistry(plugins.value, templates.value);
      var dup := parsed.ContainsDuplicates();
      if dup {
        return Err(InvalidSource);
      }
      return Ok(parsed);
    }

    /** One `for entry in config[...]` loop of `from_config`. */
    static method ParseAll(rs: seq<Record>) returns (r: Result<seq<AssetConfig>, SourceError>)
      ensures r == ParseRecords(rs)
    {
      var xs: seq<AssetConfig> := [];
      var i := 0;
      while i < |rs|
        invariant 0 <= i <= |rs|
        invariant ParseRecords(rs[..i]) == Ok(xs)
      {
        assert rs[..i + 1][..i] == rs[..i];
        var a := ParseRecord(rs[i]);
        if a.Err? {
          ParseErrPersists(rs, i + 1);
          return Err(a.error);
        }
        xs := xs + [a.value];
        i := i + 1;
      }
      assert rs[..i] == rs;
      r := Ok(xs);
    }

    /** `add_entry`: refuse a source whose repository or id is already in
        the kind's list, otherwise append it and write the document. */
    method AddEntry(owner: string, repo: string, id: string, kind: Kind, writeOk: bool)
      returns (r: Outcome<SourceError>)
      modifies this
      ensures Sources(Other(kind)) == old(Sources(Other(kind)))
      ensures FirstConflict(old(Sources(kind)), owner, repo, id).Some? ==>
        && r == Fail(FirstConflict(old(Sources(kind)), owner, repo, id).value)
        && Sources(kind) == old(Sources(kind)) && written == old(written)
      ensures FirstConflict(old(Sources(kind)), owner, repo, id).None? ==>
        && Sources(kind) == old(Sources(kind)) + [AssetConfig(owner, repo, id)]
        && (writeOk ==> r == Pass && written == Some(ToDocument(plugins, templates)))
        && (!writeOk ==> r == Fail(WriteFailed) && written == old(written))
    {
      var xs := Sources(kind);
      var i := 0;
      while i < |xs|
        invariant 0 <= i <= |xs|
        invariant FirstConflict(xs, owner, repo, id) == FirstConflict(xs[i..], owner, repo, id)
      {
        assert xs[i..][1..] == xs[i + 1..];
        if (owner, repo) == (xs[i].owner, xs[i].repo) {
          return Fail(DuplicateRepository);
        }
        if id == xs[i].id {
          return Fail(DuplicateId);
        }
        i := i + 1;
      }
      if kind == Plugin {
        plugins := plugins + [AssetConfig(owner, repo, id)];
      } else {
        templates := templates + [AssetConfig(owner, repo, id)];
      }
      r := WriteConfig(writeOk);
    }

    /** `edit_entry`: every entry whose id equals the given id is replaced
        by the new source (the `index` argument is not used), then the
        document is written. */
    method EditEntry(index: int, id: string, owner: string, repo: string, kind: Kind, writeOk: bool)
      returns (r: Outcome<SourceError>)
      modifies this
      ensures Sources(Other(kind)) == old(Sources(Other(kind)))
      ensures |Sources(kind)| == |old(Sources(kind))|
      ensures forall i :: 0 <= i < |Sources(kind)| ==>
        Sources(kind)[i] == if old(Sources(kind))[i].id == id then AssetConfig(owner, repo, id)
                            else old(Sources(kind))[i]
      ensures writeOk ==> r == Pass && written == Some(ToDocument(plugins, templates))
      ensures !writeOk ==> r == Fail(WriteFailed) && written == old(written)
    {
      var xs := Sources(kind);
      var idx := 0;
      while idx < |xs|
        invariant 0 <= idx <= |xs|
        invariant |xs| == |old(Sources(kind))|
        invariant forall i :: 0 <= i < idx ==>
          xs[i] == if old(Sources(kind))[i].id == id then AssetConfig(owner, repo, id)
                   else old(Sources(kind))[i]
        invariant forall i :: idx <= i < |xs| ==> xs[i] == old(Sources(kind))[i]
      {
        if id == xs[idx].id {
          xs := xs[idx := AssetConfig(owner, repo, id)];
        }
        idx := idx + 1;
      }
      if kind == Plugin {
        plugins := xs;
      } else {
        templates := xs;
      }
      r := WriteConfig(writeOk);
    }

    /** `remove_entry`: drop every entry with the id; nothing is written
        (the caller persists explicitly). */
    method RemoveEntry(id: string, kind: Kind)
      modifies this`plugins, this`templates
      ensures Sources(kind) == WithoutId(old(Sources(kind)), id)
      ensures Sources(Other(kind)) == old(Sources(Other(kind)))
    {
      match kind
      case Plugin => plugins := WithoutId(plugins, id);
      case Template => templates := WithoutId(templates, id);
    }

    /** `index`: the first position of a source in the kind's list. */
    function Index(config: AssetConfig, kind: Kind): (r: Result<nat, SourceError>)
      reads this
      ensures r.Ok? ==> r.value < |Sources(kind)| && Sources(kind)[r.value] == config
      ensures r.Ok? ==> forall j :: 0 <= j < r.value ==> Sources(kind)[j] != config
      ensures r.Err? <==> config !in Sources(kind)
    {
      IndexOf(Sources(kind), config)
    }
  }

  /** Once a prefix fails to parse, the whole list fails with the same error. */
  lemma {:induction false} ParseErrPersists(rs: seq<Record>, n: nat)
    requires n <= |rs| && ParseRecords(rs[..n]).Err?
    ensures ParseRecords(rs) == ParseRecords(rs[..n])
    decreases |rs| - n
  {
    if n < |rs| {
      assert rs[..n + 1][..n] == rs[..n];
      ParseErrPersists(rs, n + 1);
    } else {
      assert rs[..n] == rs;
    }
  }
}
