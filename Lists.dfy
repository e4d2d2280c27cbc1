/** `Array.prototype.map` over sequences, with and without the index the
    callback receives, and the relative positions `slice` and `splice` take. */
module Lists {

  /** The position `slice` or `splice` takes from `k` in a list of length
      `len`: a negative `k` counts from the end, and the position never
      leaves the list. */
  function Relative(len: nat, k: int): (p: nat)
    ensures p <= len
  {
    if k < 0 then (if len + k < 0 then 0 else len + k)
    else if k > len then len else k
  }

  /** `xs.map((x, i) => f(x, from + i))`. */
  function MapIndexed<T, U>(xs: seq<T>, f: (T, nat) -> U, from: nat): (r: seq<U>)
    ensures |r| == |xs|
    decreases |xs|
  {
    if xs == [] then [] else [f(xs[0], from)] + MapIndexed(xs[1..], f, from + 1)
  }

  /** Element `i` of the result is the callback applied to element `i` and
      its position `at`. */
  lemma {:induction false} MapIndexedAt<T, U>(xs: seq<T>, f: (T, nat) -> U, from: nat, i: nat, at: nat)
    requires i < |xs| && at == from + i
    ensures MapIndexed(xs, f, from)[i] == f(xs[i], at)
    decreases i
  {
    if i > 0 {
      MapIndexedAt(xs[1..], f, from + 1, i - 1, at);
      assert xs[1..][i - 1] == xs[i];
    }
  }

  /** The callback of a map from position 0 receives each element's own index. */
  lemma MapIndexedFromStart<T, U>(xs: seq<T>, f: (T, nat) -> U, i: nat)
    requires i < |xs|
    ensures MapIndexed(xs, f, 0)[i] == f(xs[i], i)
  {
    MapIndexedAt(xs, f, 0, i, i);
  }

  /** `xs.map(f)`. */
  function Map<T, U>(xs: seq<T>, f: T -> U): (r: seq<U>)
    ensures |r| == |xs|
    decreases |xs|
  {
    if xs == [] then [] else [f(xs[0])] + Map(xs[1..], f)
  }

  lemma {:induction false} MapAt<T, U>(xs: seq<T>, f: T -> U, i: nat)
    requires i < |xs|
    ensures Map(xs, f)[i] == f(xs[i])
    decreases i
  {
    if i > 0 {
      MapAt(xs[1..], f, i - 1);
      assert xs[1..][i - 1] == xs[i];
    }
  }
}
