/**
 Runs of a machine whose steps are given by a partial function: from a start, step by step, or None
 when some step could not be taken.
 */
module Runs {
  import opened Wrappers

  function Run<S, A>(start: S, apply: (S, A) -> Option<S>, acts: seq<A>): Option<S>
  {
    if acts == [] then Some(start)
    else
      var n := |acts| - 1;
      match Run(start, apply, acts[..n])
      case None => None
      case Some(s) => apply(s, acts[n])
  }

  lemma Extend<S, A>(start: S, apply: (S, A) -> Option<S>, acts: seq<A>, a: A)
    ensures Run(start, apply, acts + [a])
         == match Run(start, apply, acts) case None => None case Some(s) => apply(s, a)
  {
    assert (acts + [a])[..|acts|] == acts;
  }
}
