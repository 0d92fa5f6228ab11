/** Facts about concatenation that the solver needs by name. */
module Sequences {

  lemma Regroup<T>(a: seq<T>, b: seq<T>, c: seq<T>)
    ensures (a + b) + c == a + (b + c) && a + [] == a && (a + b) + [] == a + b
  {}

  lemma HeadAndTail<T>(head: seq<T>, tail: seq<T>)
    ensures (head + tail)[..|head|] == head && (head + tail)[|head|..] == tail && tail + [] == tail
  {}
}
