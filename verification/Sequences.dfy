/** Sequences put together. */
module Sequences {
  lemma InOneGo<T>(a: seq<T>, b: seq<T>, c: seq<T>)
    ensures (a + b) + c == a + (b + c)
  {
  }
}
