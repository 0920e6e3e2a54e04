/**
 * Option and Outcome: the two ways a step of the validation engine can end
 * without a value.  `Raised` stands for a Python exception that escapes the
 * step; its text is what `str(exception)` would show.
 */
module Wrappers {

  datatype Option<T> = None | Some(value: T)

  datatype Outcome<T> = Done(value: T) | Raised(error: string)

  /** The values of the `Some` entries of `xs`, in order. */
  function Somes<T>(xs: seq<Option<T>>): (r: seq<T>)
    ensures |r| <= |xs|
  {
    if xs == [] then []
    else Somes(xs[..|xs| - 1]) + (if xs[|xs| - 1].Some? then [xs[|xs| - 1].value] else [])
  }

  /** Taking one more entry adds its value when it is a `Some`. */
  lemma SomesStep<T>(xs: seq<Option<T>>, g: nat)
    requires g < |xs|
    ensures Somes(xs[..g + 1]) == Somes(xs[..g]) + (if xs[g].Some? then [xs[g].value] else [])
  {
    assert xs[..g + 1][..g] == xs[..g];
  }

  lemma {:induction false} SomesMeaning<T>(xs: seq<Option<T>>)
    ensures forall x :: x in Somes(xs) <==> exists g :: 0 <= g < |xs| && xs[g] == Some(x)
    decreases |xs|
  {
    if xs != [] {
      var n := |xs| - 1;
      SomesMeaning(xs[..n]);
      forall g | 0 <= g < n ensures xs[..n][g] == xs[g] {
      }
    }
  }

  /** A value among the `Some` entries comes from one of them. */
  lemma SomesWitness<T>(xs: seq<Option<T>>, x: T)
    requires x in Somes(xs)
    ensures exists g :: 0 <= g < |xs| && xs[g] == Some(x)
  {
    SomesMeaning(xs);
  }
}
