/** Facts about sorting a list with a comparison, stated for any relation so
    that the comparison itself stays folded in the proofs. */
module Sorting {

  ghost predicate SortedBy<T>(s: seq<T>, le: (T, T) -> bool)
  {
    forall a, b :: 0 <= a < b < |s| ==> le(s[a], s[b])
  }

  /** Placing `x` after every element not above it and before every element
      above it keeps a sorted list sorted. */
  lemma InsertSorted<T>(s: seq<T>, j: nat, x: T, le: (T, T) -> bool)
    requires j <= |s| && SortedBy(s, le)
    requires forall a :: 0 <= a < j ==> le(s[a], x)
    requires forall a :: j <= a < |s| ==> le(x, s[a])
    ensures SortedBy(s[..j] + [x] + s[j..], le)
  {
    var r := s[..j] + [x] + s[j..];
    forall a, b | 0 <= a < b < |r| ensures le(r[a], r[b]) {
      if b < j {
        assert r[a] == s[a] && r[b] == s[b];
      } else if b == j {
        assert r[a] == s[a] && r[b] == x;
      } else if a < j {
        assert r[a] == s[a] && r[b] == s[b - 1];
      } else if a == j {
        assert r[a] == x && r[b] == s[b - 1];
      } else {
        assert r[a] == s[a - 1] && r[b] == s[b - 1];
      }
    }
  }

  /** Inserting `x` anywhere adds exactly one `x`. */
  lemma InsertPermutes<T>(s: seq<T>, j: nat, x: T)
    requires j <= |s|
    ensures x in s[..j] + [x] + s[j..]
    ensures multiset(s[..j] + [x] + s[j..]) == multiset(s) + multiset{x}
  {
    assert s == s[..j] + s[j..];
    assert (s[..j] + [x] + s[j..])[j] == x;
  }

  /** Lists with the same multiset hold the same elements. */
  lemma SameElements<T>(a: seq<T>, b: seq<T>)
    requires multiset(a) == multiset(b)
    ensures forall k :: k in a <==> k in b
  {
    forall k ensures k in a <==> k in b {
      assert k in a <==> k in multiset(a);
      assert k in b <==> k in multiset(b);
    }
  }
}
