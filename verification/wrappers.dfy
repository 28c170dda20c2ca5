/** Failure-carrying results, two lemmas and a method shared by the components. */
module Wrappers {

  datatype Option<+T> = None | Some(value: T)

  datatype Result<+T, +E> = Ok(value: T) | Err(error: E)

  lemma ConcatAssoc<T>(a: seq<T>, b: seq<T>, c: seq<T>)
    ensures a + b + c == a + (b + c)
  {
  }

  lemma EmptyOrInhabited(s: set<int>)
    ensures s == {} || exists g :: g in s
  {
    if forall g :: g !in s {
      assert s == {};
    }
  }

  /** Some element of a set; which one is left open. */
  method Pick(s: set<int>) returns (g: int)
    requires s != {}
    ensures g in s
  {
    EmptyOrInhabited(s);
    g :| g in s;
  }
}
