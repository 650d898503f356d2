/** Regrouping of concatenations. */
module Sequences {
  lemma Associative<T>(a: seq<T>, b: seq<T>, c: seq<T>)
    ensures (a + b) + c == a + (b + c)
  {
  }

  lemma EmptyIsUnit<T>(a: seq<T>)
    ensures a + [] == a && [] + a == a
  {
  }

  lemma SplitOfSum<T>(a: seq<T>, b: seq<T>)
    ensures (a + b)[..|a|] == a && (a + b)[|a|..] == b
  {
  }
}
