/** The in-flight download guard of an asset's widget (`downloading_tags`
    in `AssetItemWidget.on_download`): a set of keys, one per version being
    downloaded, that refuses to start a second download of a key already
    in flight. Keys are the selection list's item data (`currentData()`),
    taken as opaque. The list is filled by `addItems`, which sets no item
    data, so in the program every key read is `None`: `ItemDataUnset`. */
module Downloads {
  import opened Common

  /** `set.remove` raises `KeyError` for a key that is not in the set. */
  datatype GuardError<K> = KeyNotInFlight(key: K)

  /** The guard's answer and the set after a start or a finish. */
  datatype Started<K> = Started(started: bool, after: set<K>)
  datatype Finished<K> = Finished(after: set<K>, outcome: Outcome<GuardError<K>>)

  /** Starting a download of `key`: refused when it is already in flight,
      otherwise the key joins the set. */
  function Begin<K>(inFlight: set<K>, key: K): Started<K>
  {
    if key in inFlight then Started(false, inFlight) else Started(true, inFlight + {key})
  }

  /** Finishing a download of `key`, in the `finally` block. */
  function Finish<K>(inFlight: set<K>, key: K): Finished<K>
  {
    if key in inFlight then Finished(inFlight - {key}, Pass) else Finished(inFlight, Fail(KeyNotInFlight(key)))
  }

  /** A key already in flight is refused and changes nothing; any other key
      starts, and only it joins the set: one download per key at a time. */
  lemma BeginExcludes<K>(inFlight: set<K>, key: K, other: K)
    ensures Begin(inFlight, key).started <==> key !in inFlight
    ensures Begin(inFlight, key).after == inFlight + {key}
    ensures key in inFlight ==> Begin(inFlight, key).after == inFlight
    ensures !Begin(Begin(inFlight, key).after, key).started
    ensures other != key ==> Begin(Begin(inFlight, key).after, other).started == (other !in inFlight)
  {
  }

  /** Finishing the key that was started restores the set it started from. */
  lemma BeginFinishRestores<K>(inFlight: set<K>, key: K)
    requires key !in inFlight
    ensures Finish(Begin(inFlight, key).after, key) == Finished(inFlight, Pass)
  {
    assert inFlight + {key} - {key} == inFlight;
  }

  /** `on_download` reads the selection's key again in its `finally` block,
      after the download was awaited. Were the key read there different
      from the one added, the added key would never be removed, so that
      version could no longer be downloaded from the widget, and the other
      key would be removed from under its own download or raise. This is
      latent: with no item data set, both reads give `None`. */
  lemma SelectionChangeStrandsKey<K>(inFlight: set<K>, started: K, selected: K)
    requires started !in inFlight && selected != started
    ensures var after, outcome := Finish(Begin(inFlight, started).after, selected).after,
                                  Finish(Begin(inFlight, started).after, selected).outcome;
      && started in after
      && !Begin(after, started).started
      && (selected in inFlight <==> outcome.Pass?)
      && (selected in inFlight ==> selected !in after)
  {
  }

  /** With every key `None`, as the program has it, the set is empty or
      holds `None` alone: a widget runs one download at a time, and
      finishing it empties the set again. */
  lemma ItemDataUnset(inFlight: set<Option<string>>)
    requires inFlight <= {None}
    ensures Begin(inFlight, None).started <==> inFlight == {}
    ensures Begin(inFlight, None).after == {None}
    ensures Begin(inFlight, None).started ==> Finish(Begin(inFlight, None).after, None) == Finished({}, Pass)
  {
  }

  class DownloadGuard<K(==)> {
    var inFlight: set<K>

    /** `self.downloading_tags = set()`. */
    constructor ()
      ensures inFlight == {}
    {
      inFlight := {};
    }

    /** The check and the `add` before the download starts. */
    method TryBegin(key: K) returns (started: bool)
      modifies this
      ensures Started(started, inFlight) == Begin(old(inFlight), key)
    {
      if key in inFlight {
        return false;
      }
      inFlight := inFlight + {key};
      return true;
    }

    /** The `remove` in the `finally` block. */
    method End(key: K) returns (r: Outcome<GuardError<K>>)
      modifies this
      ensures Finished(inFlight, r) == Finish(old(inFlight), key)
    {
      if key !in inFlight {
        return Fail(KeyNotInFlight(key));
      }
      inFlight := inFlight - {key};
      return Pass;
    }

    /** `on_download` as written: `enabled` stands for the widget having an
        asset and a selection list, `keyAtStart` and `keyAtEnd` for the
        selection's data read before and after the download. */
    method OnDownloadAsWritten(enabled: bool, keyAtStart: K, keyAtEnd: K) returns (started: bool, r: Outcome<GuardError<K>>)
      modifies this
      ensures started <==> enabled && keyAtStart !in old(inFlight)
      ensures !started ==> inFlight == old(inFlight) && r == Pass
      ensures started ==> Finished(inFlight, r) == Finish(old(inFlight) + {keyAtStart}, keyAtEnd)
      ensures keyAtStart == keyAtEnd ==> inFlight == old(inFlight) && r == Pass
    {
      started, r := false, Pass;
      if enabled && keyAtStart !in inFlight {
        started := TryBegin(keyAtStart);
        r := End(keyAtEnd);
      }
    }

    /** `on_download` with the key read once and used for both the `add`
        and the `remove`: whatever the selection does meanwhile, the set
        ends as it began. */
    method OnDownload(enabled: bool, key: K) returns (started: bool)
      modifies this
      ensures started <==> enabled && key !in old(inFlight)
      ensures inFlight == old(inFlight)
    {
      started := false;
      if enabled && key !in inFlight {
        started := TryBegin(key);
        BeginFinishRestores(old(inFlight), key);
        var r := End(key);
        assert r == Pass;
      }
    }
  }
}
