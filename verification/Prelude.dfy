/** Small shared vocabulary: optional values, outcomes, and flattening of nested sequences. */
module Prelude {
  datatype Option<+T> = None | Some(value: T)

  function OrElse<T>(o: Option<T>, fallback: T): T { if o.Some? then o.value else fallback }

  /** The concatenation of a sequence of sequences, in order. */
  function Flatten<T>(parts: seq<seq<T>>): seq<T> {
    if parts == [] then [] else parts[0] + Flatten(parts[1..])
  }

  /** The sum of a measure over a sequence. */
  function Total<T>(measure: T -> nat, xs: seq<T>): nat {
    if xs == [] then 0 else measure(xs[0]) + Total(measure, xs[1..])
  }

  lemma {:induction false} TotalReplaced<T>(measure: T -> nat, xs: seq<T>, i: nat, x: T)
    requires i < |xs|
    ensures Total(measure, xs[i := x]) + measure(xs[i]) == Total(measure, xs) + measure(x)
  {
    if i == 0 {
      assert xs[i := x][1..] == xs[1..];
    } else {
      TotalReplaced(measure, xs[1..], i - 1, x);
      assert xs[i := x][1..] == xs[1..][i - 1 := x];
    }
  }

  lemma {:induction false} TotalAppended<T>(measure: T -> nat, xs: seq<T>, x: T)
    ensures Total(measure, xs + [x]) == Total(measure, xs) + measure(x)
  {
    if xs == [] {
      assert (xs + [x])[1..] == [];
    } else {
      TotalAppended(measure, xs[1..], x);
      assert (xs + [x])[1..] == xs[1..] + [x];
    }
  }
}
