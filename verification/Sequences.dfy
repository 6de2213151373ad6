/** Facts about sequences that the solver needs to be reminded of. */
module Sequences {

  lemma Regroup<T>(a: seq<T>, b: seq<T>, c: seq<T>)
    ensures a + b + c == a + (b + c)
  {
  }

  lemma AppendNone<T>(a: seq<T>)
    ensures a + [] == a
  {
  }
}
