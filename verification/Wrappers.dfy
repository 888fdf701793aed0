/** Absent values, calls that may be refused, and lookups in a table. A refusal carries nothing:
    the callers modelled here treat all exceptions of one family alike. */
module Wrappers {
  datatype Option<+T> = None | Some(value: T)

  datatype Result<+T> = Ok(value: T) | Err

  /** The first position whose element satisfies `p`, as a query for one row finds it. */
  function IndexOf<T>(xs: seq<T>, p: T -> bool): (r: Option<nat>)
    ensures r.Some? ==> r.value < |xs| && p(xs[r.value]) && forall i :: 0 <= i < r.value ==> !p(xs[i])
    ensures r.None? ==> forall i :: 0 <= i < |xs| ==> !p(xs[i])
  {
    if |xs| == 0 then None
    else
      var before := IndexOf(xs[..|xs| - 1], p);
      if before.Some? then before
      else if p(xs[|xs| - 1]) then Some(|xs| - 1)
      else None
  }
}
