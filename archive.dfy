/** Planning of root-stripped archive extraction: which members of a
    downloaded release archive are written, under which names. Member names
    use '/' as the separator, as section 4.4.17.1 of PKWARE's APPNOTE.TXT
    (the ZIP format) requires. */
module Archive {
  import opened Common
  import opened Strings

  /** A ZIP member: its name and its contents (empty for a directory). */
  datatype Member = Member(name: string, data: string)
  {
    /** `ZipInfo.is_dir`: the name ends with '/'. */
    predicate IsDir()
    {
      |name| > 0 && name[|name| - 1] == '/'
    }
  }

  /** `_is_root`: a directory member whose name has a single segment, with
      or without a trailing slash. */
  predicate IsRoot(m: Member)
  {
    m.IsDir() &&
    var parts := Split(m.name, "/");
    |parts| == 1 || (|parts| == 2 && parts[1] == "")
  }

  /** A root entry is a directory with no '/' anywhere but at the end. */
  lemma IsRootMeans(m: Member)
    ensures IsRoot(m) <==> m.IsDir() && NoCharBeforeLast(m.name, '/')
  {
    SingleSegment(m.name, '/');
  }

  /** The first segment of a member name (`name.split("/")[0]`). */
  function TopLevel(name: string): (t: string)
    ensures |t| <= |name| && t == name[..|t|]
    ensures forall j :: 0 <= j < |t| ==> t[j] != '/'
    ensures t == name || (|t| < |name| && name[|t|] == '/')
  {
    SplitAtFirst(name, "/");
    FindFirstMeans(name, "/");
    var t := Split(name, "/")[0];
    match FindFirst(name, "/")
    case None =>
      forall j | 0 <= j < |name| ensures name[j] != '/' {
        assert !OccursAt(name, "/", j);
        assert name[j..j + 1] == [name[j]];
      }
      t
    case Some(i) =>
      forall j | 0 <= j < i ensures name[j] != '/' {
        assert !OccursAt(name, "/", j);
        assert name[j..j + 1] == [name[j]];
      }
      assert name[i..i + 1] == "/";
      t
  }

  /** The set `top_level_dirs` of first segments over all member names. */
  function TopLevels(members: seq<Member>): set<string>
  {
    set m | m in members :: TopLevel(m.name)
  }

  /** `next(info for info in infolist if _is_root(info))`, with `None` for
      the `StopIteration` raised when there is no root entry. */
  function FirstRoot(members: seq<Member>): (r: Option<Member>)
    ensures r.Some? ==> IsRoot(r.value) && r.value in members
    ensures r.Some? ==> exists i :: 0 <= i < |members| && members[i] == r.value &&
                          forall j :: 0 <= j < i ==> !IsRoot(members[j])
    ensures r.None? <==> forall m :: m in members ==> !IsRoot(m)
  {
    if members == [] then None
    else if IsRoot(members[0]) then Some(members[0])
    else
      var r := FirstRoot(members[1..]);
      if r.Some? then
        ghost var i :| 0 <= i < |members[1..]| && members[1..][i] == r.value &&
                       forall j :: 0 <= j < i ==> !IsRoot(members[1..][j]);
        assert members[i + 1] == r.value;
        assert forall j :: 1 <= j < i + 1 ==> members[j] == members[1..][j - 1];
        r
      else
        assert forall m :: m in members ==> m == members[0] || m in members[1..];
        r
  }

  /** The new name `_members_without_root` gives a member: the parts of the
      name split on the root's name, after the first, joined again; `None`
      when the member is not yielded (it does not contain the root's name,
      or the second part is empty). */
  function RebaseName(name: string, root: string): Option<string>
    requires |root| > 0
  {
    var parts := Split(name, root);
    if |parts| > 1 && parts[1] != "" then Some(Join(parts[1..], root)) else None
  }

  /** A member is kept exactly when the root's name occurs in it and the
      text after the first occurrence is non-empty and does not start with
      the root's name again; the kept name is that text. */
  lemma RebaseNameMeans(name: string, root: string)
    requires |root| > 0
    ensures FindFirst(name, root).None? ==> RebaseName(name, root).None?
    ensures FindFirst(name, root).Some? ==>
      var rest := name[FindFirst(name, root).value + |root|..];
      && (RebaseName(name, root).Some? <==>
          rest != "" && !(|root| <= |rest| && rest[..|root|] == root))
      && (RebaseName(name, root).Some? ==> RebaseName(name, root).value == rest)
  {
    TailAfterFirst(name, root);
    SplitAtFirst(name, root);
    if FindFirst(name, root).Some? {
      var rest := name[FindFirst(name, root).value + |root|..];
      FirstPartEmpty(rest, root);
      assert Split(name, root)[1] == Split(rest, root)[0];
    }
  }

  /** The root entry itself is never yielded. */
  lemma RootNameDropped(root: string)
    requires |root| > 0
    ensures RebaseName(root, root).None?
  {
    RebaseNameMeans(root, root);
    assert OccursAt(root, root, 0);
  }

  /** As written, a subdirectory that repeats the root's name right below
      it is lost: "pkg/pkg/a.txt" under root "pkg/" is not extracted,
      because its second part is empty. */
  lemma RepeatedRootNameDropped()
    ensures RebaseName("pkg/pkg/a.txt", "pkg/").None?
  {
    var name, root := "pkg/pkg/a.txt", "pkg/";
    RebaseNameMeans(name, root);
    assert OccursAt(name, root, 0);
    assert name[4..][..4] == root;
  }

  /** The rename `_members_without_root` evidently intends: strip the
      leading root name, keeping whatever follows, a subdirectory with the
      root's name included. */
  function RebaseNameIntended(name: string, root: string): (r: Option<string>)
    requires |root| > 0
    ensures r.Some? ==> name == root + r.value && r.value != ""
  {
    if |root| < |name| && name[..|root|] == root then Some(name[|root|..]) else None
  }

  /** Every member below the root keeps its path relative to the root,
      "pkg/pkg/a.txt" under "pkg/" becoming "pkg/a.txt"; the root entry
      itself and members outside it are dropped. */
  lemma RebaseNameIntendedKeeps(root: string, rest: string)
    requires |root| > 0
    ensures RebaseNameIntended(root + rest, root) == (if rest == "" then None else Some(rest))
    ensures RebaseNameIntended("pkg/pkg/a.txt", "pkg/") == Some("pkg/a.txt")
  {
    assert (root + rest)[..|root|] == root;
    assert (root + rest)[|root|..] == rest;
    assert "pkg/pkg/a.txt"[..4] == "pkg/";
  }

  /** Below the root, the code as written agrees with the intended rename
      except where the path repeats the root's name right after it. */
  lemma RebaseNameAgreesBelowRoot(root: string, rest: string)
    requires |root| > 0
    requires !(|root| <= |rest| && rest[..|root|] == root)
    ensures RebaseName(root + rest, root) == RebaseNameIntended(root + rest, root)
  {
    var name := root + rest;
    RebaseNameMeans(name, root);
    RebaseNameIntendedKeeps(root, rest);
    assert OccursAt(name, root, 0) by {
      assert name[0..|root|] == root;
    }
    assert name[|root|..] == rest;
  }

  /** The members `_members_without_root` yields, renamed, in archive order. */
  function RebasedMembers(members: seq<Member>, root: string): (r: seq<Member>)
    requires |root| > 0
    ensures |r| <= |members|
  {
    if members == [] then []
    else
      var last := members[|members| - 1];
      var front := RebasedMembers(members[..|members| - 1], root);
      match RebaseName(last.name, root)
      case Some(n) => front + [last.(name := n)]
      case None => front
  }

  /** Renaming keeps the archive order: it distributes over concatenation. */
  lemma {:induction false} RebasedAppend(a: seq<Member>, b: seq<Member>, root: string)
    requires |root| > 0
    ensures RebasedMembers(a + b, root) == RebasedMembers(a, root) + RebasedMembers(b, root)
    decreases |b|
  {
    if b == [] {
      assert a + b == a;
    } else {
      var b' := b[..|b| - 1];
      assert (a + b)[..|a + b| - 1] == a + b';
      RebasedAppend(a, b', root);
    }
  }

  /** A member appears in the output exactly when some member of the
      archive is renamed to it, keeping its kind and contents. */
  lemma {:induction false} RebasedMembership(members: seq<Member>, root: string, m': Member)
    requires |root| > 0
    ensures m' in RebasedMembers(members, root) <==>
      exists m :: m in members && RebaseName(m.name, root) == Some(m'.name) &&
                  m' == m.(name := m'.name)
    decreases |members|
  {
    if members != [] {
      var front := members[..|members| - 1];
      var last := members[|members| - 1];
      RebasedMembership(front, root, m');
      assert members == front + [last];
      if m' in RebasedMembers(members, root) && m' !in RebasedMembers(front, root) {
        assert RebaseName(last.name, root) == Some(m'.name) && m' == last.(name := m'.name);
      }
    }
  }

  /** `_members_without_root`: a loop over the archive's members that gives
      each kept member its new name (in place, in the source) and yields it. */
  method MembersWithoutRoot(members: seq<Member>, root: string) returns (out: seq<Member>)
    requires |root| > 0
    ensures out == RebasedMembers(members, root)
  {
    out := [];
    var i := 0;
    while i < |members|
      invariant 0 <= i <= |members|
      invariant out == RebasedMembers(members[..i], root)
    {
      var info := members[i];
      var parts := Split(info.name, root);
      if |parts| > 1 && parts[1] != "" {
        out := out + [info.(name := Join(parts[1..], root))];
      }
      assert members[..i + 1][..i] == members[..i];
      i := i + 1;
    }
    assert members[..i] == members;
  }

  /** What `extract_zip_without_root` extracts. */
  datatype Plan =
    | ExtractVerbatim                        // `archive.extractall(path)`
    | ExtractRenamed(members: seq<Member>)   // only these members, renamed

  /** `next` found no single-segment directory entry (`StopIteration`). */
  datatype ArchiveError = NoRootEntry

  /** The members `extract_zip_without_root` hands to `extractall`, or the
      error it raises first. */
  function ExtractionPlan(members: seq<Member>): Result<seq<Member>, ArchiveError>
  {
    var root := FirstRoot(members);
    if root.None? then Err(NoRootEntry)
    else if |TopLevels(members)| == 1 then Ok(RebasedMembers(members, root.value.name))
    else Ok(members)
  }

  /** An archive holding "pkg/" and "pkg/a.txt" extracts "a.txt" alone:
      the root entry is dropped and the rest loses its leading "pkg/". */
  lemma ExtractionPlanStripsRoot(data: string)
    ensures ExtractionPlan([Member("pkg/", ""), Member("pkg/a.txt", data)]) ==
      Ok([Member("a.txt", data)])
  {
    ExampleRoot(data);
    ExampleRebased(data);
  }

  /** In that archive "pkg/" is the root and the only top-level segment. */
  lemma ExampleRoot(data: string)
    ensures var members := [Member("pkg/", ""), Member("pkg/a.txt", data)];
      FirstRoot(members) == Some(Member("pkg/", "")) && TopLevels(members) == {"pkg"}
  {
    var root, file := Member("pkg/", ""), Member("pkg/a.txt", data);
    IsRootMeans(root);
    assert IsRoot(root);
    ExampleTopLevels(root, file);
  }

  /** Both names of that archive start with the segment "pkg". */
  lemma ExampleTopLevels(root: Member, file: Member)
    requires root.name == "pkg/" && file.name == "pkg/a.txt"
    ensures TopLevels([root, file]) == {"pkg"}
  {
    TopLevelBefore(root.name, 3);
    TopLevelBefore(file.name, 3);
    assert root.name[..3] == "pkg" && file.name[..3] == "pkg";
    assert forall m :: m in [root, file] ==> m == root || m == file;
  }

  /** The top-level segment ends at the first '/'. */
  lemma TopLevelBefore(name: string, i: nat)
    requires i < |name| && name[i] == '/'
    requires forall j :: 0 <= j < i ==> name[j] != '/'
    ensures TopLevel(name) == name[..i]
  {
  }

  /** Rebasing that archive on "pkg/" leaves "a.txt" alone. */
  lemma ExampleRebased(data: string)
    ensures RebasedMembers([Member("pkg/", ""), Member("pkg/a.txt", data)], "pkg/") == [Member("a.txt", data)]
  {
    var root, file := Member("pkg/", ""), Member("pkg/a.txt", data);
    var members := [root, file];
    RootNameDropped("pkg/");
    assert "pkg/" + "a.txt" == file.name;
    RebaseNameAgreesBelowRoot("pkg/", "a.txt");
    RebaseNameIntendedKeeps("pkg/", "a.txt");
    assert RebaseName(file.name, "pkg/") == Some("a.txt");
    assert [root][..0] == [];
    assert RebasedMembers([root], "pkg/") == [];
    assert members[..1] == [root];
  }

  /** The decision of `extract_zip_without_root`: the first single-segment
      directory entry is the root (there must be one, whatever the archive
      holds); members are rebased only when all names share one top-level
      segment, and otherwise the archive is extracted as it is. */
  method PlanExtraction(members: seq<Member>) returns (r: Result<Plan, ArchiveError>)
    ensures r == Err(NoRootEntry) <==> forall m :: m in members ==> !IsRoot(m)
    ensures r.Ok? && r.value.ExtractRenamed? <==>
      FirstRoot(members).Some? && |TopLevels(members)| == 1
    ensures r.Ok? && r.value.ExtractRenamed? ==>
      var root := FirstRoot(members).value.name;
      |root| > 0 && r.value.members == RebasedMembers(members, root)
    ensures r == Ok(ExtractVerbatim) <==>
      FirstRoot(members).Some? && |TopLevels(members)| != 1
    ensures r.Err? <==> ExtractionPlan(members).Err?
    ensures r.Err? ==> r.error == ExtractionPlan(members).error
    ensures r.Ok? ==>
      ExtractionPlan(members).value == (if r.value.ExtractVerbatim? then members else r.value.members)
  {
    var root := FirstRoot(members);
    if root.None? {
      return Err(NoRootEntry);
    }
    var topLevelDirs := TopLevels(members);
    if |topLevelDirs| == 1 {
      var renamed := MembersWithoutRoot(members, root.value.name);
      r := Ok(ExtractRenamed(renamed));
    } else {
      r := Ok(ExtractVerbatim);
    }
  }
}
