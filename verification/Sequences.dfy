/** The end of a list, as slices with a negative start take it. */
module Sequences {

  /** `s[-n:]` for n >= 1. */
  function Last<T>(s: seq<T>, n: nat): (r: seq<T>)
    ensures |r| == if |s| <= n then |s| else n
  {
    if |s| <= n then s else s[|s| - n..]
  }

  /** Cutting a window after each append keeps exactly the last elements. */
  lemma {:induction false} LastAppend<T>(s: seq<T>, n: nat, x: T)
    requires n >= 1
    ensures Last(Last(s, n) + [x], n) == Last(s + [x], n)
  {}

  /** The last a of the last b are the last a or b, whichever is fewer. */
  lemma {:induction false} LastLast<T>(s: seq<T>, a: nat, b: nat)
    ensures Last(Last(s, b), a) == Last(s, if a <= b then a else b)
  {}
}
