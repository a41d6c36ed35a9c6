/** Shared vocabulary of the asset manager: the two asset kinds and the
    Option/Result/Outcome wrappers that stand for Python's `None` and for
    raised exceptions. */
module Common {

  /** `FrayToolsAssetType`: every other entity is partitioned by kind. */
  datatype Kind = Plugin | Template

  /** The kind whose partition an operation on `k` must leave alone. */
  function Other(k: Kind): (o: Kind)
    ensures o != k
  {
    if k == Plugin then Template else Plugin
  }

  datatype Option<+T> = None | Some(value: T)

  /** A value, or the exception the source would have raised instead. */
  datatype Result<+T, +E> = Ok(value: T) | Err(error: E)

  /** The outcome of an operation that returns nothing but may raise. */
  datatype Outcome<+E> = Pass | Fail(error: E)

  /** Python's `str(x)` on an optional string: `str(None)` is the text "None". */
  function PyStr(x: Option<string>): (s: string)
    ensures x.Some? ==> s == x.value
    ensures x.None? ==> s == "None"
  {
    match x
    case Some(v) => v
    case None => "None"
  }

  /** Python list indexing `xs[i]`, negative indices counting from the end;
      `None` is the `IndexError`. */
  function PyIndex<T>(xs: seq<T>, i: int): (r: Option<T>)
    ensures r.Some? <==> -|xs| <= i < |xs|
    ensures 0 <= i < |xs| ==> r == Some(xs[i])
    ensures -|xs| <= i < 0 ==> r == Some(xs[|xs| + i])
  {
    if 0 <= i < |xs| then Some(xs[i])
    else if -|xs| <= i < 0 then Some(xs[|xs| + i])
    else None
  }
}
