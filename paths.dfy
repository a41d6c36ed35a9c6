/** Deterministic locations of downloaded release archives
    (`download_location`, `download_location_file`) and of installed assets
    (`plugin_directory`, `template_directory`). A path is the sequence of its
    segments, relative to the user's home directory unless its first
    segment is `Root`. */
module Paths {
  import opened Common
  import opened Strings

  type Path = seq<string>

  /** The first segment of an absolute path. */
  const Root: string := "/"

  /** The segments pathlib makes of a `joinpath` argument: its '/'-parts
      without empty and "." parts (".." is kept, not resolved). */
  function PathParts(arg: string): (parts: seq<string>)
    ensures forall s :: s in parts ==> s != "" && s != "." && '/' !in s
  {
    SplitPartsSlashFree(arg);
    NonEmptyParts(Split(arg, "/"))
  }

  function NonEmptyParts(parts: seq<string>): (kept: seq<string>)
    ensures forall s :: s in kept ==> s in parts && s != "" && s != "."
  {
    if parts == [] then []
    else if parts[0] == "" || parts[0] == "." then NonEmptyParts(parts[1..])
    else [parts[0]] + NonEmptyParts(parts[1..])
  }

  /** No part of a split on '/' holds a '/'. */
  lemma {:induction false} SplitPartsSlashFree(s: string)
    ensures forall part :: part in Split(s, "/") ==> '/' !in part
    decreases |s|
  {
    SplitAtFirst(s, "/");
    FindFirstMeans(s, "/");
    match FindFirst(s, "/")
    case None =>
      forall j | 0 <= j < |s| ensures s[j] != '/' {
        assert !OccursAt(s, "/", j);
        assert s[j..j + 1] == [s[j]];
      }
    case Some(i) =>
      forall j | 0 <= j < i ensures s[j] != '/' {
        assert !OccursAt(s, "/", j);
        assert s[j..j + 1] == [s[j]];
      }
      SplitPartsSlashFree(s[i + 1..]);
  }

  /** `base.joinpath(arg)`: the argument's segments appended, or, for an
      argument starting with '/', the argument alone as an absolute path. */
  function JoinPath(base: Path, arg: string): (p: Path)
    ensures |arg| > 0 && arg[0] == '/' ==> |p| > 0 && p[0] == Root
    ensures !(|arg| > 0 && arg[0] == '/') ==> |base| <= |p| && p[..|base|] == base
  {
    if |arg| > 0 && arg[0] == '/' then [Root] + PathParts(arg) else base + PathParts(arg)
  }

  /** A name pathlib and the operating system both take as one segment of
      its own: not empty, no '/', and neither "." nor "..". */
  predicate PlainSegment(s: string)
  {
    s != "" && s != "." && s != ".." && '/' !in s
  }

  /** Joining a '/'-free, non-empty argument other than "." appends exactly
      that one segment. */
  lemma JoinOneSegment(base: Path, arg: string)
    ensures arg != "" && arg != "." && '/' !in arg ==> JoinPath(base, arg) == base + [arg]
  {
    if arg != "" && arg != "." && '/' !in arg {
      OneSegmentParts(arg);
      assert arg[0] in arg;
    }
  }

  /** A '/'-free, non-empty argument other than "." is one segment. */
  lemma OneSegmentParts(arg: string)
    requires arg != "" && arg != "." && '/' !in arg
    ensures PathParts(arg) == [arg]
  {
    FindFirstMeans(arg, "/");
    SplitAtFirst(arg, "/");
    assert [arg][1..] == [];
    assert NonEmptyParts([arg]) == [arg] + NonEmptyParts([]);
  }

  /** An argument whose first '/' follows a plain name starts with that name. */
  lemma LeadingSegmentParts(a: string, rest: string)
    requires a != "" && a != "." && '/' !in a
    ensures PathParts(a + "/" + rest) == [a] + PathParts(rest)
  {
    var s := a + "/" + rest;
    FindFirstMeans(s, "/");
    SplitAtFirst(s, "/");
    assert OccursAt(s, "/", |a|);
    assert s[..|a|] == a && s[|a| + 1..] == rest;
    var parts := [a] + Split(rest, "/");
    assert parts[0] == a && parts[1..] == Split(rest, "/");
  }

  /** `app_directory()` outside Windows. */
  const AppDirectory: Path := [".config", "FrayToolsManager"]

  /** `cache_directory()`. */
  const CacheDirectory: Path := AppDirectory + ["cache"]

  /** `plugin_directory()` and `template_directory()`: where assets of each
      kind are installed. */
  function InstallDirectory(kind: Kind): (p: Path)
    ensures |p| == 2 && p[0] == "FrayToolsData"
  {
    match kind
    case Plugin => ["FrayToolsData", "plugins"]
    case Template => ["FrayToolsData", "templates"]
  }

  /** `p` lies inside the directory `dir`. */
  predicate Under(p: Path, dir: Path)
  {
    |dir| < |p| && p[..|dir|] == dir
  }

  /** The name of the one-line install marker written into an install directory. */
  const MarkerName: string := ".fraytools-manager-version"

  /** The cache sub-folder of each kind. */
  function KindFolder(kind: Kind): string
  {
    match kind
    case Plugin => "plugins"
    case Template => "templates"
  }

  /** `download_location`: `cache/<plugins|templates>` joined with the id. */
  function DownloadLocation(id: string, kind: Kind): (p: Path)
    ensures PlainSegment(id) ==> p == CacheDirectory + [KindFolder(kind), id]
  {
    JoinOneSegment(CacheDirectory + [KindFolder(kind)], id);
    JoinPath(CacheDirectory + [KindFolder(kind)], id)
  }

  /** The archive's file name, `<id>-<tag>.zip`. */
  function ArchiveName(id: string, tag: string): string
  {
    id + "-" + tag + ".zip"
  }

  /** `download_location_file`: the download location joined with the
      archive's file name. */
  function DownloadLocationFile(id: string, tag: string, kind: Kind): (p: Path)
    ensures PlainSegment(id) && '/' !in tag ==>
      |p| == 6 && p[..5] == DownloadLocation(id, kind) && p[5] == ArchiveName(id, tag)
  {
    var name := ArchiveName(id, tag);
    assert PlainSegment(id) && '/' !in tag ==> name != "" && name != "." && '/' !in name by {
      if PlainSegment(id) && '/' !in tag {
        assert name[|name| - 1] == 'p';
        assert forall c :: c in name ==> c in id || c in tag || c in "-.zip";
      }
    }
    JoinOneSegment(DownloadLocation(id, kind), name);
    JoinPath(DownloadLocation(id, kind), name)
  }

  /** For ids that are plain segments and tags without '/', distinct
      (id, tag, kind) triples never share an archive path, so a
      path-existence check speaks about exactly one version of one asset. */
  lemma DownloadLocationFileInjective(id1: string, tag1: string, k1: Kind,
                                      id2: string, tag2: string, k2: Kind)
    requires PlainSegment(id1) && PlainSegment(id2) && '/' !in tag1 && '/' !in tag2
    requires DownloadLocationFile(id1, tag1, k1) == DownloadLocationFile(id2, tag2, k2)
    ensures id1 == id2 && tag1 == tag2 && k1 == k2
  {
    var p1, p2 := DownloadLocationFile(id1, tag1, k1), DownloadLocationFile(id2, tag2, k2);
    assert p1[3] == KindFolder(k1) && p2[3] == KindFolder(k2);
    assert p1[4] == id1 && p2[4] == id2;
    var prefix := id1 + "-";
    assert p1[5] == prefix + (tag1 + ".zip") && p2[5] == prefix + (tag2 + ".zip");
    assert (prefix + (tag1 + ".zip"))[|prefix|..] == tag1 + ".zip";
    assert (prefix + (tag2 + ".zip"))[|prefix|..] == tag2 + ".zip";
    assert (tag1 + ".zip")[..|tag1|] == tag1;
    assert (tag2 + ".zip")[..|tag2|] == tag2;
  }

  /** Without that restriction two versions of two assets can share one
      archive: id `a` with tag `b/a/a-b-x` and id `a/a-b` with tag `x` both
      give `cache/<kind folder>/a/a-b/a/a-b-x.zip` (for instance "a", "b"
      and "X"). */
  lemma SlashedNamesCollide(a: string, b: string, x: string, kind: Kind)
    requires PlainSegment(a) && '/' !in b && '/' !in x
    ensures var ab := a + "-" + b;
      DownloadLocationFile(a, b + "/" + a + "/" + ab + "-" + x, kind) ==
      DownloadLocationFile(a + "/" + ab, x, kind)
  {
    SlashFreeConcat(a + "-" + b, "-" + x + ".zip");
    SlashedTagPath(a, b, x, kind);
    SlashedIdPath(a, b, x, kind);
  }

  /** A concatenation of '/'-free strings is '/'-free. */
  lemma SlashFreeConcat(s: string, t: string)
    requires '/' !in s && '/' !in t
    ensures '/' !in s + t
  {
  }

  /** Id `a` with tag `b/a/a-b-x`: the file name `a-b/a/a-b-x.zip` gives
      three segments. */
  lemma SlashedTagPath(a: string, b: string, x: string, kind: Kind)
    requires PlainSegment(a) && '/' !in b && '/' !in x
    requires '/' !in a + "-" + b + "-" + x + ".zip"
    ensures var ab := a + "-" + b;
      DownloadLocationFile(a, b + "/" + a + "/" + ab + "-" + x, kind) ==
      CacheDirectory + [KindFolder(kind), a, ab, a, ab + "-" + x + ".zip"]
  {
    var ab := a + "-" + b;
    var f := ab + "-" + x + ".zip";
    var tag := b + "/" + a + "/" + ab + "-" + x;
    assert '/' !in ab by { SlashFreeConcat(a, "-" + b); }
    assert f[|f| - 1] == 'p';
    OneSegmentParts(f);
    LeadingSegmentParts(a, f);
    assert ArchiveName(a, tag) == ab + "/" + (a + "/" + f);
    assert ab[0] == a[0];
    LeadingSegmentParts(ab, a + "/" + f);
    assert a[0] in a;
  }

  /** Id `a/a-b` with tag `x`: the id gives two segments, the file name
      `a/a-b-x.zip` two more. */
  lemma SlashedIdPath(a: string, b: string, x: string, kind: Kind)
    requires PlainSegment(a) && '/' !in b && '/' !in x
    requires '/' !in a + "-" + b + "-" + x + ".zip"
    ensures var ab := a + "-" + b;
      DownloadLocationFile(a + "/" + ab, x, kind) ==
      CacheDirectory + [KindFolder(kind), a, ab, a, ab + "-" + x + ".zip"]
  {
    var ab := a + "-" + b;
    var f := ab + "-" + x + ".zip";
    var id := a + "/" + ab;
    assert '/' !in ab by { SlashFreeConcat(a, "-" + b); }
    assert f[|f| - 1] == 'p';
    OneSegmentParts(ab);
    OneSegmentParts(f);
    LeadingSegmentParts(a, ab);
    assert a[0] in a;
    assert id[0] == a[0];
    assert DownloadLocation(id, kind) == CacheDirectory + [KindFolder(kind), a, ab];
    assert ArchiveName(id, x) == a + "/" + f;
    LeadingSegmentParts(a, f);
  }

  /** The download cache lies outside both install directories, so
      clearing an install directory never removes a downloaded archive
      whose id is a plain segment and whose tag has no '/'. */
  lemma CacheOutsideInstallDirectories(id: string, tag: string, kind: Kind, installKind: Kind, sub: Path)
    requires PlainSegment(id) && '/' !in tag
    ensures !Under(DownloadLocationFile(id, tag, kind), InstallDirectory(installKind) + sub)
  {
    var p := DownloadLocationFile(id, tag, kind);
    assert p[0] == ".config";
    assert (InstallDirectory(installKind) + sub)[0] == "FrayToolsData";
    assert ".config"[0] != "FrayToolsData"[0];
  }
}
