/** Python's `dict` keyed by strings, which remembers the order in which its
    keys were first inserted, and the id-keyed builders
    `generate_manifest_map`, `generate_asset_map` and `generate_config_map`. */
module Dicts {
  import opened Common

  /** The keys in first-insertion order, and what each key maps to. */
  datatype Dict<V> = Dict(keys: seq<string>, entries: map<string, V>)
  {
    ghost predicate Valid()
    {
      && (forall i, j :: 0 <= i < j < |keys| ==> keys[i] != keys[j])
      && (forall k :: k in entries <==> k in keys)
    }

    /** `d[k] = v`: a new key goes to the end, an existing one keeps its place. */
    function Put(k: string, v: V): (d: Dict<V>)
      requires Valid()
      ensures d.Valid()
      ensures d.Get(k) == Some(v)
      ensures d.entries == entries[k := v]
      ensures d.keys == if k in entries then keys else keys + [k]
    {
      if k in entries then Dict(keys, entries[k := v]) else Dict(keys + [k], entries[k := v])
    }

    /** Assigning `k` leaves every other key as it was. */
    lemma PutKeepsOthers(k: string, v: V, j: string)
      requires Valid() && j != k
      ensures Put(k, v).Get(j) == Get(j)
    {
      assert Put(k, v).entries == entries[k := v];
    }

    /** `d.get(k)`. */
    function Get(k: string): Option<V>
    {
      if k in entries then Some(entries[k]) else None
    }

    /** `d.values()`, in key order. */
    function Values(): (vs: seq<V>)
      requires Valid()
      ensures |vs| == |keys|
      ensures forall i :: 0 <= i < |keys| ==> keys[i] in entries && vs[i] == entries[keys[i]]
    {
      seq(|keys|, i requires 0 <= i < |keys| => entries[keys[i]])
    }
  }

  /** The dictionary with the same keys, in the same order, each value
      passed through `f`. */
  function Mapped<V, W>(d: Dict<V>, f: V -> W): (r: Dict<W>)
    ensures r.keys == d.keys && r.entries.Keys == d.entries.Keys
    ensures forall k :: k in d.entries ==> r.entries[k] == f(d.entries[k])
  {
    Dict(d.keys, map k | k in d.entries :: f(d.entries[k]))
  }

  /** Mapping keeps a dictionary well formed. */
  lemma MappedValid<V, W>(d: Dict<V>, f: V -> W)
    requires d.Valid()
    ensures Mapped(d, f).Valid()
  {
  }

  /** Assigning and then mapping is mapping and then assigning the mapped value. */
  lemma MappedPut<V, W>(d: Dict<V>, f: V -> W, k: string, v: V)
    requires d.Valid()
    ensures Mapped(d, f).Valid()
    ensures Mapped(d.Put(k, v), f) == Mapped(d, f).Put(k, f(v))
  {
    MappedValid(d, f);
    var m := Mapped(d, f);
    MappedUpdate(d.entries, d.Put(k, v).entries, f, k, v);
    assert Mapped(d.Put(k, v), f).entries == m.Put(k, f(v)).entries;
  }

  /** The entry-wise half of `MappedPut`, on the underlying maps: `e2` is
      `e` with `k` assigned `v`. */
  lemma MappedUpdate<V, W>(e: map<string, V>, e2: map<string, V>, f: V -> W, k: string, v: V)
    requires e2 == e[k := v]
    ensures (map x | x in e2 :: f(e2[x])) == (map x | x in e :: f(e[x]))[k := f(v)]
  {
    var a, b := map x | x in e2 :: f(e2[x]), (map x | x in e :: f(e[x]))[k := f(v)];
    assert a.Keys == b.Keys;
    forall x | x in a ensures a[x] == b[x] {
    }
  }

  /** The dictionary a loop `d[idOf(x)] = x` over `xs` leaves behind. */
  function ById<T>(xs: seq<T>, idOf: T -> string): (d: Dict<T>)
    ensures d.Valid()
  {
    if xs == [] then Dict([], map[])
    else ById(xs[..|xs| - 1], idOf).Put(idOf(xs[|xs| - 1]), xs[|xs| - 1])
  }

  /** The position of the first element of `xs` with id `k`. */
  function FirstWithId<T>(xs: seq<T>, idOf: T -> string, k: string): (i: nat)
    requires exists x :: x in xs && idOf(x) == k
    ensures i < |xs| && idOf(xs[i]) == k
    ensures forall j :: 0 <= j < i ==> idOf(xs[j]) != k
  {
    if idOf(xs[0]) == k then 0
    else
      assert exists x :: x in xs[1..] && idOf(x) == k by {
        var x :| x in xs && idOf(x) == k;
        assert x != xs[0];
      }
      1 + FirstWithId(xs[1..], idOf, k)
  }

  /** Key `k` is present exactly when some element has id `k`, and then it
      holds the last such element. */
  ghost predicate LastWins<T>(xs: seq<T>, idOf: T -> string, k: string)
  {
    LastWinsIn(ById(xs, idOf), xs, idOf, k)
  }

  /** `LastWins`, for a dictionary `d` standing for the one built over `xs`. */
  ghost predicate LastWinsIn<T>(d: Dict<T>, xs: seq<T>, idOf: T -> string, k: string)
  {
    && (k in d.entries <==> exists x :: x in xs && idOf(x) == k)
    && (k in d.entries ==>
        exists i :: 0 <= i < |xs| && idOf(xs[i]) == k && d.entries[k] == xs[i] &&
                    forall j :: i < j < |xs| ==> idOf(xs[j]) != k)
  }

  /** The keys are exactly the ids of `xs`, and each key holds the LAST
      element with that id (later assignments win). */
  lemma ByIdLastWins<T>(xs: seq<T>, idOf: T -> string, k: string)
    ensures k in ById(xs, idOf).entries <==> exists x :: x in xs && idOf(x) == k
    ensures k in ById(xs, idOf).entries ==>
      exists i :: 0 <= i < |xs| && idOf(xs[i]) == k && ById(xs, idOf).entries[k] == xs[i] &&
                  forall j :: i < j < |xs| ==> idOf(xs[j]) != k
  {
    LastWinsHolds(xs, idOf, k);
  }

  /** `LastWins` holds for every sequence, by induction on its length. */
  lemma {:induction false} LastWinsHolds<T>(xs: seq<T>, idOf: T -> string, k: string)
    ensures LastWins(xs, idOf, k)
    decreases |xs|
  {
    if xs != [] {
      var front, last := xs[..|xs| - 1], xs[|xs| - 1];
      LastWinsHolds(front, idOf, k);
      LastWinsStep(front, last, idOf, k);
      assert front + [last] == xs;
    }
  }

  /** The inductive step of `LastWinsHolds`: appending one element. */
  lemma LastWinsStep<T>(front: seq<T>, last: T, idOf: T -> string, k: string)
    requires LastWins(front, idOf, k)
    ensures LastWins(front + [last], idOf, k)
  {
    var d, d' := ById(front + [last], idOf), ById(front, idOf);
    ByIdSnoc(front, last, idOf);
    if idOf(last) == k {
      LastWinsNewest(d, front, last, idOf, k);
    } else {
      d'.PutKeepsOthers(idOf(last), last, k);
      LastWinsOther(d, d', front, last, idOf, k);
    }
  }

  /** Building over one more element assigns it last. */
  lemma ByIdSnoc<T>(front: seq<T>, last: T, idOf: T -> string)
    ensures ById(front + [last], idOf) == ById(front, idOf).Put(idOf(last), last)
  {
    var xs := front + [last];
    assert xs[..|xs| - 1] == front;
  }

  /** Mapping the dictionary built over one more element is assigning the
      mapped element to the mapped dictionary: the step of a loop that
      builds a dictionary of converted elements. */
  lemma MappedByIdSnoc<T, W>(front: seq<T>, last: T, idOf: T -> string, f: T -> W)
    ensures Mapped(ById(front + [last], idOf), f) == Mapped(ById(front, idOf), f).Put(idOf(last), f(last))
  {
    ByIdSnoc(front, last, idOf);
    MappedPut(ById(front, idOf), f, idOf(last), last);
  }

  /** `MappedByIdSnoc` for the prefixes of `xs` a loop walks through. */
  lemma MappedByIdPrefix<T, W>(xs: seq<T>, i: nat, idOf: T -> string, f: T -> W)
    requires i < |xs|
    ensures Mapped(ById(xs[..i + 1], idOf), f) == Mapped(ById(xs[..i], idOf), f).Put(idOf(xs[i]), f(xs[i]))
  {
    assert xs[..i] + [xs[i]] == xs[..i + 1];
    MappedByIdSnoc(xs[..i], xs[i], idOf, f);
  }

  /** The element appended last wins its own key. */
  lemma LastWinsNewest<T>(d: Dict<T>, front: seq<T>, last: T, idOf: T -> string, k: string)
    requires idOf(last) == k && d.Get(k) == Some(last)
    ensures LastWinsIn(d, front + [last], idOf, k)
  {
    var xs := front + [last];
    assert xs[|xs| - 1] == last;
  }

  /** An element appended under another key leaves `k` as it was. */
  lemma LastWinsOther<T>(d: Dict<T>, d': Dict<T>, front: seq<T>, last: T, idOf: T -> string, k: string)
    requires idOf(last) != k
    requires LastWinsIn(d', front, idOf, k)
    requires d.Get(k) == d'.Get(k)
    ensures LastWinsIn(d, front + [last], idOf, k)
  {
    var xs := front + [last];
    assert (exists x :: x in xs && idOf(x) == k) <==> (exists x :: x in front && idOf(x) == k) by {
      forall x | x in xs && idOf(x) == k ensures x in front {
      }
    }
    if k in d'.entries {
      var i :| 0 <= i < |front| && idOf(front[i]) == k && d'.entries[k] == front[i] &&
               forall j :: i < j < |front| ==> idOf(front[j]) != k;
      assert xs[i] == front[i];
    }
  }

  /** The keys come in the order in which their ids first appear in `xs`. */
  lemma {:induction false} ByIdKeyOrder<T>(xs: seq<T>, idOf: T -> string, a: nat, b: nat)
    requires a < b < |ById(xs, idOf).keys|
    ensures var keys := ById(xs, idOf).keys;
      (exists x :: x in xs && idOf(x) == keys[a]) &&
      (exists x :: x in xs && idOf(x) == keys[b]) &&
      FirstWithId(xs, idOf, keys[a]) < FirstWithId(xs, idOf, keys[b])
    decreases |xs|
  {
    var front, last := xs[..|xs| - 1], xs[|xs| - 1];
    assert xs == front + [last];
    var keys, keys' := ById(xs, idOf).keys, ById(front, idOf).keys;
    ByIdSnoc(front, last, idOf);
    if b < |keys'| {
      assert keys[a] == keys'[a] && keys[b] == keys'[b];
      ByIdKeyOrder(front, idOf, a, b);
      FirstWithIdPrefix(front, last, idOf, keys[a]);
      FirstWithIdPrefix(front, last, idOf, keys[b]);
    } else {
      KeyOrderNewKey(front, last, idOf, a);
    }
  }

  /** A key inserted by the element appended last comes after every key
      already present, and so does the first position of its id. */
  lemma KeyOrderNewKey<T>(front: seq<T>, last: T, idOf: T -> string, a: nat)
    requires a < |ById(front, idOf).keys|
    requires idOf(last) !in ById(front, idOf).entries
    ensures var k := ById(front, idOf).keys[a];
      (exists x :: x in front + [last] && idOf(x) == k) &&
      (exists x :: x in front + [last] && idOf(x) == idOf(last)) &&
      FirstWithId(front + [last], idOf, k) < FirstWithId(front + [last], idOf, idOf(last))
  {
    var xs, d' := front + [last], ById(front, idOf);
    var k := d'.keys[a];
    ByIdLastWins(front, idOf, k);
    ByIdLastWins(front, idOf, idOf(last));
    FirstWithIdPrefix(front, last, idOf, k);
    assert xs[|front|] == last;
  }

  /** Appending an element does not move the first position of an id that
      already occurs. */
  lemma FirstWithIdPrefix<T>(front: seq<T>, last: T, idOf: T -> string, k: string)
    requires exists x :: x in front && idOf(x) == k
    ensures exists x :: x in front + [last] && idOf(x) == k
    ensures FirstWithId(front + [last], idOf, k) == FirstWithId(front, idOf, k)
  {
    var xs := front + [last];
    var i, i' := FirstWithId(xs, idOf, k), FirstWithId(front, idOf, k);
    assert xs[i'] == front[i'];
    assert forall j :: 0 <= j < |front| ==> xs[j] == front[j];
  }

  /** Every key holds an element carrying that id. */
  ghost predicate WellKeyed<T>(d: Dict<T>, idOf: T -> string)
  {
    forall k :: k in d.entries ==> idOf(d.entries[k]) == k
  }

  /** The builders produce well-keyed dictionaries. */
  lemma ByIdWellKeyed<T>(xs: seq<T>, idOf: T -> string)
    ensures WellKeyed(ById(xs, idOf), idOf)
  {
    forall k | k in ById(xs, idOf).entries
      ensures idOf(ById(xs, idOf).entries[k]) == k
    {
      ByIdLastWins(xs, idOf, k);
    }
  }

  /** The builder loop: `for x in xs: d[idOf(x)] = x`. */
  method BuildIdMap<T>(xs: seq<T>, idOf: T -> string) returns (d: Dict<T>)
    ensures d.Valid()
    ensures d == ById(xs, idOf)
  {
    d := Dict([], map[]);
    var i := 0;
    while i < |xs|
      invariant 0 <= i <= |xs|
      invariant d == ById(xs[..i], idOf)
    {
      assert xs[..i + 1][..i] == xs[..i];
      d := d.Put(idOf(xs[i]), xs[i]);
      i := i + 1;
    }
    assert xs[..i] == xs;
  }
}
