/** Facts about concatenation that the solver does not see by itself. */
module Sequences {

  lemma Associative<T>(a: seq<T>, b: seq<T>, c: seq<T>)
    ensures (a + b) + c == a + (b + c)
  {
  }

  lemma MultisetOfConcat<T>(a: seq<T>, b: seq<T>)
    ensures multiset(a + b) == multiset(a) + multiset(b)
  {
  }

  /** Moving an item from the front of what is to come to the end of what is done. */
  lemma Shift<T>(done: seq<T>, item: seq<T>, rest: seq<T>, total: seq<T>)
    requires done + (item + rest) == total
    ensures (done + item) + rest == total
  {
    Associative(done, item, rest);
  }
}
