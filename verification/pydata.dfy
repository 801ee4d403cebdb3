/** The Python side's values: pandas cells and list indexing. */
module PyData {
  import opened Wrappers

  /**
   * A pandas cell as the routers see it: a number (integers stand in for floats), a
   * string, numpy's infinity, or a missing value (`NaN` after a label that is not there).
   */
  datatype Cell = Number(n: int) | Text(s: string) | Infinity | Missing

  /** Python `xs[k]`: a negative `k` counts from the end; anything else out of range is an IndexError. */
  function PyIndex<T>(xs: seq<T>, k: int): (r: Option<T>)
    ensures r.Some? <==> -|xs| <= k < |xs|
    ensures 0 <= k < |xs| ==> r == Some(xs[k])
    ensures -|xs| <= k < 0 ==> r == Some(xs[|xs| + k])
  {
    if 0 <= k < |xs| then Some(xs[k]) else if -|xs| <= k < 0 then Some(xs[|xs| + k]) else None
  }
}
