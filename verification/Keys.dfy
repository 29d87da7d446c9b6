/** Index keys are byte strings compared the way `std::string::operator<` compares them.

    Every proof about the tree needs a total order and bounds that may be missing.  Both come from
    one order embedding: `Rank` sends a string to a real number in [0, 1) so that lexicographic
    order becomes the order of the reals, 0 is a lower bound of every key and 1 is above every key. */
module Keys {
  type Key = string

  // One more than the number of character codes, so that a missing character ranks below all others.
  ghost const BASE := 1114113.0

  ghost function Rank(s: Key): (r: real)
    ensures 0.0 <= r < 1.0
  {
    if s == [] then 0.0 else ((s[0] as int) as real + 1.0 + Rank(s[1..])) / BASE
  }

  /** `std::string::operator<`. */
  predicate Less(a: Key, b: Key)
    ensures Less(a, b) <==> Rank(a) < Rank(b)
  {
    RankOrdersLexicographically(a, b);
    LessBytes(a, b)
  }

  predicate LessBytes(a: Key, b: Key) {
    b != [] && (a == [] || a[0] < b[0] || (a[0] == b[0] && LessBytes(a[1..], b[1..])))
  }

  /** The embedding is faithful: it neither merges two keys nor disagrees with the byte order. */
  lemma {:induction false} RankOrdersLexicographically(a: Key, b: Key)
    ensures LessBytes(a, b) <==> Rank(a) < Rank(b)
    ensures a == b <==> Rank(a) == Rank(b)
  {
    if a != [] && b != [] {
      RankOrdersLexicographically(a[1..], b[1..]);
      assert a == [a[0]] + a[1..];
      assert b == [b[0]] + b[1..];
    }
  }
}
