/** Python values that the pipelines pass around: optional strings (a value or
    `None`), exceptions, and JSON objects whose values are strings. */
module Py {

  datatype Option<+T> = None | Some(value: T)

  /** Either a value or a raised exception, kept as the text `str(e)` gives. */
  datatype Result<+T> = Ok(value: T) | Raised(message: string)

  /** A JSON object (a `dict`) whose values are strings. */
  type Record = map<string, string>

  /** `bool(v)` for a `str | None`: set and non-empty. */
  predicate Truthy(v: Option<string>)
  {
    v.Some? && v.value != ""
  }

  /** How an f-string renders a `str | None`: `None` prints as the word None. */
  function Show(v: Option<string>): string
  {
    if v.Some? then v.value else "None"
  }

  /** `d.get(key)`. */
  function Get(d: Record, key: string): Option<string>
  {
    if key in d then Some(d[key]) else None
  }

  /** `d.get(key, default)`: the default only when the key is absent. */
  function GetOr(d: Record, key: string, default: string): (v: string)
    ensures key in d ==> v == d[key]
    ensures key !in d ==> v == default
  {
    if key in d then d[key] else default
  }

  /** `[f(x) for x in xs]`. */
  function Map<X, Y>(f: X -> Y, xs: seq<X>): (ys: seq<Y>)
    ensures |ys| == |xs| && forall i :: 0 <= i < |xs| ==> ys[i] == f(xs[i])
  {
    if xs == [] then [] else [f(xs[0])] + Map(f, xs[1..])
  }

  /** A comprehension maps each part of a concatenation on its own. */
  lemma {:induction false} MapAppend<X, Y>(f: X -> Y, a: seq<X>, b: seq<X>)
    ensures Map(f, a + b) == Map(f, a) + Map(f, b)
  {
    if a != [] {
      assert (a + b)[1..] == a[1..] + b;
      MapAppend(f, a[1..], b);
    } else {
      assert a + b == b;
    }
  }
}
