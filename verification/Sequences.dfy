/** Sequences with an element removed. */
module Sequences {

  function WithoutAt<T>(xs: seq<T>, k: nat): seq<T>
    requires k < |xs|
  {
    xs[..k] + xs[k + 1..]
  }
}
