/** Small shared vocabulary: an optional value and the sum of a sequence of reals
    (numpy's np.sum over a one-dimensional array). */
module Prelude {

  datatype Option<T> = None | Some(value: T)

  /** Sum of all elements. np.sum adds float arrays pairwise; over the reals
      every order of addition gives this same value. */
  function Sum(s: seq<real>): real
    decreases |s|
  {
    if |s| == 0 then 0.0 else Sum(s[..|s| - 1]) + s[|s| - 1]
  }

  lemma SumSnoc(s: seq<real>, x: real)
    ensures Sum(s + [x]) == Sum(s) + x
  {
    assert (s + [x])[..|s|] == s;
  }
}
