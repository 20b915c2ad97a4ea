/** Lists: mapping over one, and the set of what is in it. */
module Sequences {

  function Map<T, U>(xs: seq<T>, f: T -> U): (ys: seq<U>)
    ensures |ys| == |xs|
  {
    seq(|xs|, i requires 0 <= i < |xs| => f(xs[i]))
  }

  function Elements<T>(xs: seq<T>): set<T> { set x | x in xs }
}
