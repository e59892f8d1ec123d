/** Facts about sequences shared by the list-shaped screens. */
module Sequences {

  /** `a` is `b` with some elements dropped and the rest kept in order. */
  ghost predicate SubsequenceOf<T>(a: seq<T>, b: seq<T>)
    decreases |b|
  {
    |a| == 0 || (|b| > 0 && ((a[0] == b[0] && SubsequenceOf(a[1..], b[1..])) || SubsequenceOf(a, b[1..])))
  }

  /** Concatenation adds up the occurrences of each element. */
  lemma CountAppend<T>(p: seq<T>, s: seq<T>, y: T)
    ensures multiset(p + s)[y] == multiset(p)[y] + multiset(s)[y]
  {
  }

  /** The occurrences in a non-empty sequence: those of its head plus those of its tail. */
  lemma CountHeadTail<T>(s: seq<T>, y: T)
    requires |s| > 0
    ensures multiset(s)[y] == (if s[0] == y then 1 else 0) + multiset(s[1..])[y]
  {
    assert s == [s[0]] + s[1..];
  }
}
