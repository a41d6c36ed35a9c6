/** Python's `str.split(sep)` and `sep.join(parts)` for a non-empty
    separator, which the archive planning uses both on "/" and on the name
    of the archive's root directory. */
module Strings {
  import opened Common

  /** `sep` occurs in `s` at position `i`. */
  ghost predicate OccursAt(s: string, sep: string, i: int)
  {
    0 <= i && i + |sep| <= |s| && s[i..i + |sep|] == sep
  }

  /** `s.find(sep)`, with `None` for -1. */
  function FindFirst(s: string, sep: string): (r: Option<nat>)
    requires |sep| > 0
    ensures r.Some? ==> r.value + |sep| <= |s|
    decreases |s|
  {
    if |s| < |sep| then None
    else if s[..|sep|] == sep then Some(0)
    else
      match FindFirst(s[1..], sep)
      case None => None
      case Some(j) => Some(j + 1)
  }

  /** The position found is the leftmost occurrence; `None` means there is
      none. */
  lemma {:induction false} FindFirstMeans(s: string, sep: string)
    requires |sep| > 0
    ensures var r := FindFirst(s, sep);
      && (r.Some? ==> OccursAt(s, sep, r.value))
      && (r.Some? ==> forall j :: 0 <= j < r.value ==> !OccursAt(s, sep, j))
      && (r.None? ==> forall j :: 0 <= j ==> !OccursAt(s, sep, j))
    decreases |s|
  {
    if |s| < |sep| {
    } else if s[..|sep|] == sep {
      assert OccursAt(s, sep, 0);
    } else {
      FindFirstMeans(s[1..], sep);
      OccursShift(s, sep);
      assert !OccursAt(s, sep, 0);
    }
  }

  /** Occurrences in `s[1..]` are those in `s`, one position earlier. */
  lemma OccursShift(s: string, sep: string)
    requires |s| > 0
    ensures forall k :: 1 <= k ==> (OccursAt(s, sep, k) <==> OccursAt(s[1..], sep, k - 1))
  {
    forall k | 1 <= k
      ensures OccursAt(s, sep, k) <==> OccursAt(s[1..], sep, k - 1)
    {
      if k + |sep| <= |s| {
        assert s[1..][k - 1..k - 1 + |sep|] == s[k..k + |sep|];
      }
    }
  }

  /** `s.split(sep)`: scanned left to right, each occurrence of `sep` ends
      one part; the parts never contain the separators that cut them. */
  function Split(s: string, sep: string): (parts: seq<string>)
    requires |sep| > 0
    ensures |parts| >= 1
    decreases |s|
  {
    if |s| < |sep| then [s]
    else if s[..|sep|] == sep then [""] + Split(s[|sep|..], sep)
    else
      var rest := Split(s[1..], sep);
      [[s[0]] + rest[0]] + rest[1..]
  }

  /** `sep.join(parts)`. */
  function Join(parts: seq<string>, sep: string): string
    requires |parts| >= 1
  {
    if |parts| == 1 then parts[0] else parts[0] + sep + Join(parts[1..], sep)
  }

  /** Splitting `s` cuts at the first occurrence and continues after it. */
  ghost predicate CutsAtFirst(s: string, sep: string)
    requires |sep| > 0
  {
    match FindFirst(s, sep)
    case None => Split(s, sep) == [s]
    case Some(i) => Split(s, sep) == [s[..i]] + Split(s[i + |sep|..], sep)
  }

  /** Splitting cuts at the first occurrence and continues after it. */
  lemma SplitAtFirst(s: string, sep: string)
    requires |sep| > 0
    ensures FindFirst(s, sep).None? ==> Split(s, sep) == [s]
    ensures FindFirst(s, sep).Some? ==>
      var i := FindFirst(s, sep).value;
      Split(s, sep) == [s[..i]] + Split(s[i + |sep|..], sep)
  {
    CutsAtFirstHolds(s, sep);
  }

  /** Every text is cut at the first occurrence, by induction on its length. */
  lemma {:induction false} CutsAtFirstHolds(s: string, sep: string)
    requires |sep| > 0
    ensures CutsAtFirst(s, sep)
    decreases |s|
  {
    if |s| < |sep| {
      assert FindFirst(s, sep) == None;
    } else if s[..|sep|] == sep {
      CutsAtFirstPrefix(s, sep);
    } else {
      CutsAtFirstHolds(s[1..], sep);
      CutsAtFirstStep(s, sep);
    }
  }

  /** A text that starts with the separator is cut right there. */
  lemma CutsAtFirstPrefix(s: string, sep: string)
    requires 0 < |sep| <= |s| && s[..|sep|] == sep
    ensures CutsAtFirst(s, sep)
  {
    assert FindFirst(s, sep) == Some(0);
    assert s[..0] == "";
  }

  /** The inductive step of `SplitAtFirst`: a text that does not start with
      the separator is cut where its tail is, one position later. */
  lemma CutsAtFirstStep(s: string, sep: string)
    requires 0 < |sep| <= |s| && s[..|sep|] != sep
    requires CutsAtFirst(s[1..], sep)
    ensures CutsAtFirst(s, sep)
  {
    var t := s[1..];
    var rest := Split(t, sep);
    assert Split(s, sep) == [[s[0]] + rest[0]] + rest[1..];
    var f := FindFirst(t, sep);
    if f.None? {
      assert FindFirst(s, sep) == None;
      assert [s[0]] + t == s;
    } else {
      var j := f.value;
      assert FindFirst(s, sep) == Some(j + 1);
      var after := Split(t[j + |sep|..], sep);
      assert rest[0] == t[..j] && rest[1..] == after;
      assert [s[0]] + t[..j] == s[..j + 1];
      assert t[j + |sep|..] == s[j + 1 + |sep|..];
    }
  }

  /** Joining the parts with the same separator gives the text back. */
  lemma {:induction false} JoinSplit(s: string, sep: string)
    requires |sep| > 0
    ensures Join(Split(s, sep), sep) == s
    decreases |s|
  {
    SplitAtFirst(s, sep);
    match FindFirst(s, sep)
    case None =>
    case Some(i) =>
      var rest := s[i + |sep|..];
      JoinSplit(rest, sep);
      FoundOccurs(s, sep);
      JoinCons(s[..i], Split(rest, sep), sep);
      CutAround(s, i, i + |sep|);
  }

  /** Joining a part in front of at least one more. */
  lemma JoinCons(a: string, rest: seq<string>, sep: string)
    requires |rest| >= 1
    ensures Join([a] + rest, sep) == a + sep + Join(rest, sep)
  {
    assert ([a] + rest)[1..] == rest;
  }

  /** A text is its three pieces around a slice. */
  lemma CutAround(s: string, i: nat, j: nat)
    requires i <= j <= |s|
    ensures s == s[..i] + s[i..j] + s[j..]
  {
  }

  /** The separator sits at the position found. */
  lemma FoundOccurs(s: string, sep: string)
    requires |sep| > 0
    ensures FindFirst(s, sep).Some? ==> OccursAt(s, sep, FindFirst(s, sep).value)
  {
    FindFirstMeans(s, sep);
  }

  /** There is more than one part exactly when the separator occurs; the
      parts after the first, joined again, are the text after its first
      occurrence. */
  lemma TailAfterFirst(s: string, sep: string)
    requires |sep| > 0
    ensures |Split(s, sep)| > 1 <==> FindFirst(s, sep).Some?
    ensures FindFirst(s, sep).Some? ==>
      Join(Split(s, sep)[1..], sep) == s[FindFirst(s, sep).value + |sep|..]
  {
    SplitAtFirst(s, sep);
    var f := FindFirst(s, sep);
    if f.Some? {
      var rest := s[f.value + |sep|..];
      TailOfCons(s[..f.value], Split(rest, sep));
      JoinSplit(rest, sep);
    }
  }

  /** Dropping the first element of a sequence built in front of another. */
  lemma TailOfCons(a: string, rest: seq<string>)
    ensures |[a] + rest| == 1 + |rest|
    ensures ([a] + rest)[1..] == rest
  {
  }

  /** The first part is empty exactly when the text is empty or starts with
      the separator. */
  lemma FirstPartEmpty(s: string, sep: string)
    requires |sep| > 0
    ensures Split(s, sep)[0] == "" <==> s == "" || (|sep| <= |s| && s[..|sep|] == sep)
  {
  }

  /** `s` has no `c` before its last position. */
  ghost predicate NoCharBeforeLast(s: string, c: char)
  {
    forall j :: 0 <= j < |s| - 1 ==> s[j] != c
  }

  /** With a one-character separator, at most two parts of which the second
      is empty means: the character occurs nowhere but possibly at the end. */
  lemma SingleSegment(s: string, c: char)
    ensures var parts := Split(s, [c]);
      (|parts| == 1 || (|parts| == 2 && parts[1] == "")) <==> NoCharBeforeLast(s, c)
  {
    var sep := [c];
    SplitAtFirst(s, sep);
    FindFirstMeans(s, sep);
    forall j | 0 <= j < |s| ensures OccursAt(s, sep, j) <==> s[j] == c {
      assert s[j..j + 1] == [s[j]];
    }
    match FindFirst(s, sep)
    case None =>
    case Some(i) =>
      var rest := s[i + 1..];
      FirstPartEmpty(rest, sep);
      JoinSplit(rest, sep);
      if rest == "" {
        assert Split(rest, sep) == [""];
      } else {
        assert s[i] == c && i < |s| - 1;
      }
  }
}
