/**
 * Small facts about concatenation and multiplication, stated once so that
 * proofs cite them instead of leaving the solver to rediscover them.
 */
module Basics {

  /** Concatenation is associative. */
  lemma AppendAssoc<T>(a: seq<T>, b: seq<T>, c: seq<T>)
    ensures a + (b + c) == (a + b) + c
  {
  }

  /** Two single elements appended make the pair. */
  lemma PairAppend<T>(a: T, b: T)
    ensures [a] + [b] == [a, b]
  {
  }

  /** The empty sequence is a left unit of concatenation. */
  lemma EmptyAppend<T>(s: seq<T>)
    ensures [] + s == s
  {
  }

  /** The first element and the rest of a + b, for a non-empty `a`. */
  lemma ConsAppend<T>(a: seq<T>, b: seq<T>)
    requires a != []
    ensures (a + b)[0] == a[0] && (a + b)[1..] == a[1..] + b
  {
  }

  /** Multiplication by a successor, unfolded by one step. */
  lemma MulSucc(a: nat, b: nat)
    ensures (a + 1) * b == a * b + b
  {
  }
}
