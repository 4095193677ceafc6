/** Two small facts of reals and sets. */
module Basics {
  function Abs(x: real): real { if x < 0.0 then -x else x }

  /** Some member of a set that is not empty. */
  lemma Member<T>(s: set<T>) returns (x: T)
    requires s != {}
    ensures x in s
  {
    assert (forall y :: y !in s) ==> s == {};
    x :| x in s;
  }
}
